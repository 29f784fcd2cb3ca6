/** `split_command_line`: a state machine for shell-like quoting, and the language
it reads.
*/
module CommandLine {
  import opened Options
  import opened Strings

  datatype State = Basic | Esc | SingleQuote | DoubleQuote | Whitespace

  datatype Machine = Machine(state: State, arg: string, args: seq<string>)

  predicate IsSpecial(c: char) {
    c == '\\' || c == '\'' || c == '\"' || IsSpace(c)
  }

  function Step(m: Machine, c: char): Machine {
    match m.state
    case Esc => m.(arg := m.arg + [c], state := Basic)
    case SingleQuote => if c == '\'' then m.(state := Basic) else m.(arg := m.arg + [c])
    case DoubleQuote => if c == '\"' then m.(state := Basic) else m.(arg := m.arg + [c])
    case _ =>
      if c == '\\' then m.(state := Esc)
      else if c == '\'' then m.(state := SingleQuote)
      else if c == '\"' then m.(state := DoubleQuote)
      else if IsSpace(c) then
        if m.state == Whitespace then m else Machine(Whitespace, "", m.args + [m.arg])
      else m.(arg := m.arg + [c], state := Basic)
  }

  function Steps(m: Machine, text: string): Machine
    decreases |text|
  {
    if text == "" then m else Steps(Step(m, text[0]), text[1..])
  }

  const Start: Machine := Machine(Basic, "", [])

  function Finish(m: Machine): seq<string> {
    if m.arg != "" then m.args + [m.arg] else m.args
  }

  function Split(line: string): seq<string> {
    Finish(Steps(Start, line))
  }

  method SplitCommandLine(line: string) returns (argList: seq<string>)
    ensures argList == Split(line)
  {
    argList := [];
    var arg, state := "", Basic;
    for i := 0 to |line|
      invariant Steps(Machine(state, arg, argList), line[i..]) == Steps(Start, line)
    {
      var c := line[i];
      ghost var before := Machine(state, arg, argList);
      assert line[i..][1..] == line[i + 1..];
      if state == Basic || state == Whitespace {
        if c == '\\' {
          state := Esc;
        } else if c == '\'' {
          state := SingleQuote;
        } else if c == '\"' {
          state := DoubleQuote;
        } else if IsSpace(c) {
          if state != Whitespace {
            argList, arg, state := argList + [arg], "", Whitespace;
          }
        } else {
          arg, state := arg + [c], Basic;
        }
      } else if state == Esc {
        arg, state := arg + [c], Basic;
      } else if state == SingleQuote {
        if c == '\'' {
          state := Basic;
        } else {
          arg := arg + [c];
        }
      } else {
        if c == '\"' {
          state := Basic;
        } else {
          arg := arg + [c];
        }
      }
      assert Machine(state, arg, argList) == Step(before, c);
    }
    if arg != "" {
      argList := argList + [arg];
    }
  }

  // ----- the language of command lines -----

  /** A piece of a word: a plain character, an escaped one, or quoted text. */
  datatype Fragment = Plain(c: char) | Escaped(c: char) | Single(s: string) | Double(s: string) {

    predicate Valid() {
      match this
      case Plain(c) => !IsSpecial(c)
      case Escaped(_) => true
      case Single(s) => '\'' !in s
      case Double(s) => '\"' !in s
    }

    function Spell(): string {
      match this
      case Plain(c) => [c]
      case Escaped(c) => ['\\', c]
      case Single(s) => ['\''] + s + ['\'']
      case Double(s) => ['\"'] + s + ['\"']
    }

    function Value(): string {
      match this
      case Plain(c) => [c]
      case Escaped(c) => [c]
      case Single(s) => s
      case Double(s) => s
    }
  }

  /** A word of at least one fragment, and the white space that follows it. */
  datatype Word = Word(fragments: seq<Fragment>, gap: string) {

    predicate Valid() {
      && fragments != []
      && (forall f :: f in fragments ==> f.Valid())
      && AllSpace(gap)
    }

    function Value(): string {
      ValueOf(fragments)
    }
  }

  function ValueOf(fs: seq<Fragment>): string {
    if fs == [] then "" else fs[0].Value() + ValueOf(fs[1..])
  }

  function SpellingOf(fs: seq<Fragment>): string {
    if fs == [] then "" else fs[0].Spell() + SpellingOf(fs[1..])
  }

  /** Words apart from each other; only the last may lack a gap. */
  predicate Command(ws: seq<Word>) {
    && (forall i :: 0 <= i < |ws| ==> ws[i].Valid())
    && forall i :: 0 <= i < |ws| - 1 ==> ws[i].gap != ""
  }

  function Line(ws: seq<Word>): string {
    if ws == [] then "" else SpellingOf(ws[0].fragments) + ws[0].gap + Line(ws[1..])
  }

  function Values(ws: seq<Word>): seq<string> {
    seq(|ws|, i requires 0 <= i < |ws| => ws[i].Value())
  }

  predicate Outside(m: Machine) {
    m.state == Basic || m.state == Whitespace
  }

  lemma {:induction false} StepsOfConcat(m: Machine, a: string, b: string)
    ensures Steps(m, a + b) == Steps(Steps(m, a), b)
    decreases |a|
  {
    if a == "" {
      assert a + b == b;
    } else {
      assert (a + b)[1..] == a[1..] + b;
      StepsOfConcat(Step(m, a[0]), a[1..], b);
    }
  }

  lemma {:induction false} QuotedTextIsKept(m: Machine, s: string)
    requires (m.state == SingleQuote && '\'' !in s) || (m.state == DoubleQuote && '\"' !in s)
    ensures Steps(m, s) == m.(arg := m.arg + s)
    decreases |s|
  {
    if s == "" {
      assert m.arg + s == m.arg;
    } else {
      QuotedTextIsKept(Step(m, s[0]), s[1..]);
      assert m.arg + [s[0]] + s[1..] == m.arg + s;
    }
  }

  lemma FragmentIsRead(m: Machine, f: Fragment)
    requires Outside(m) && f.Valid()
    ensures Steps(m, f.Spell()) == m.(arg := m.arg + f.Value(), state := Basic)
  {
    match f {
      case Plain(c) =>
        assert Steps(m, [c]) == Steps(Step(m, c), []);
      case Escaped(c) =>
        assert ['\\', c][1..] == [c];
        assert Steps(m, ['\\', c]) == Steps(Step(Step(m, '\\'), c), [c][1..]);
      case Single(s) => QuotesAreRead(m, '\'', SingleQuote, s);
      case Double(s) => QuotesAreRead(m, '\"', DoubleQuote, s);
    }
  }

  lemma QuotesAreRead(m: Machine, q: char, inside: State, s: string)
    requires Outside(m) && q !in s
    requires (q == '\'' && inside == SingleQuote) || (q == '\"' && inside == DoubleQuote)
    ensures Steps(m, [q] + s + [q]) == m.(arg := m.arg + s, state := Basic)
  {
    var begun := m.(state := inside);
    assert Steps(m, [q]) == Steps(begun, [q][1..]) == begun;
    StepsOfConcat(m, [q], s);
    QuotedTextIsKept(begun, s);
    StepsOfConcat(m, [q] + s, [q]);
    var closing := begun.(arg := m.arg + s);
    assert Steps(closing, [q]) == Steps(Step(closing, q), [q][1..]);
  }

  lemma {:induction false} FragmentsAreRead(m: Machine, fs: seq<Fragment>)
    requires Outside(m) && fs != [] && forall f :: f in fs ==> f.Valid()
    ensures Steps(m, SpellingOf(fs)) == m.(arg := m.arg + ValueOf(fs), state := Basic)
    decreases |fs|
  {
    var m' := m.(arg := m.arg + fs[0].Value(), state := Basic);
    FragmentIsRead(m, fs[0]);
    StepsOfConcat(m, fs[0].Spell(), SpellingOf(fs[1..]));
    assert Steps(m, SpellingOf(fs)) == Steps(m', SpellingOf(fs[1..]));
    Assoc(m.arg, fs[0].Value(), ValueOf(fs[1..]));
    if |fs| == 1 {
      assert m.arg + fs[0].Value() + "" == m.arg + fs[0].Value();
    } else {
      FragmentsAreRead(m', fs[1..]);
    }
  }

  lemma {:induction false} SpaceIsSkipped(m: Machine, gap: string)
    requires m.state == Whitespace && AllSpace(gap)
    ensures Steps(m, gap) == m
    decreases |gap|
  {
    if gap != "" {
      SpaceIsSkipped(m, gap[1..]);
    }
  }

  lemma WordIsRead(m: Machine, w: Word)
    requires Outside(m) && m.arg == "" && w.Valid()
    ensures Steps(m, SpellingOf(w.fragments) + w.gap) ==
            if w.gap == "" then Machine(Basic, w.Value(), m.args)
            else Machine(Whitespace, "", m.args + [w.Value()])
  {
    FragmentsAreRead(m, w.fragments);
    assert "" + w.Value() == w.Value();
    StepsOfConcat(m, SpellingOf(w.fragments), w.gap);
    if w.gap != "" {
      SpaceIsSkipped(Machine(Whitespace, "", m.args + [w.Value()]), w.gap[1..]);
    }
  }

  /** The argument that the machine drops: an empty last one with nothing after it. */
  predicate DropsLast(ws: seq<Word>) {
    ws != [] && ws[|ws| - 1].gap == "" && ws[|ws| - 1].Value() == ""
  }

  /** The arguments that come out. */
  function Kept(ws: seq<Word>): seq<string> {
    if DropsLast(ws) then Values(ws)[..|ws| - 1] else Values(ws)
  }

  lemma KeptOfCons(ws: seq<Word>)
    requires |ws| > 0 && ws[0].gap != ""
    ensures Kept(ws) == [ws[0].Value()] + Kept(ws[1..])
  {
    assert Values(ws) == [ws[0].Value()] + Values(ws[1..]);
    assert DropsLast(ws) <==> DropsLast(ws[1..]);
  }

  lemma {:induction false} CommandIsRead(m: Machine, ws: seq<Word>)
    requires Outside(m) && m.arg == "" && Command(ws)
    ensures Finish(Steps(m, Line(ws))) == m.args + Kept(ws)
    decreases |ws|
  {
    if ws == [] {
      assert m.args + [] == m.args;
    } else {
      var w := ws[0];
      WordIsRead(m, w);
      StepsOfConcat(m, SpellingOf(w.fragments) + w.gap, Line(ws[1..]));
      if w.gap != "" {
        CommandIsRead(Machine(Whitespace, "", m.args + [w.Value()]), ws[1..]);
        KeptOfCons(ws);
        Assoc(m.args, [w.Value()], Kept(ws[1..]));
      } else {
        LastWord(m, ws);
      }
    }
  }

  lemma LastWord(m: Machine, ws: seq<Word>)
    requires Outside(m) && m.arg == "" && Command(ws) && ws != [] && ws[0].gap == ""
    requires Steps(m, Line(ws)) == Steps(Machine(Basic, ws[0].Value(), m.args), Line(ws[1..]))
    ensures Finish(Steps(m, Line(ws))) == m.args + Kept(ws)
  {
    assert |ws| == 1 && Line(ws[1..]) == "";
    assert Values(ws) == [ws[0].Value()];
    assert Kept(ws) == if ws[0].Value() == "" then [] else [ws[0].Value()];
  }

  /** Splitting gives back the words of any command, however they are quoted and
      spaced, if and only if the last one is not an empty word ending the line. */
  lemma SplitReadsCommands(ws: seq<Word>)
    requires Command(ws)
    ensures Split(Line(ws)) == Values(ws) <==> !DropsLast(ws)
    ensures DropsLast(ws) ==> Split(Line(ws)) == Values(ws)[..|ws| - 1]
  {
    CommandIsRead(Start, ws);
  }

  // ----- every line -----

  /** How a line that is cut short ends: after a backslash, or inside quotes. */
  datatype Stop = Backslash | Quoted(q: char, s: string) {

    predicate Valid() {
      Quoted? ==> (q == '\'' || q == '\"') && q !in s
    }

    function Spell(): string {
      if Backslash? then ['\\'] else [q] + s
    }

    function Value(): string {
      if Backslash? then "" else s
    }
  }

  datatype End = Finished | Cut(fragments: seq<Fragment>, stop: Stop) {

    function Spell(): string {
      if Finished? then "" else SpellingOf(fragments) + stop.Spell()
    }
  }

  /** Words, and perhaps the beginning of one more. */
  datatype Reading = Reading(words: seq<Word>, end: End) {

    predicate Valid() {
      match end
      case Finished => Command(words)
      case Cut(fs, stop) => AllGapped(words) && (forall f :: f in fs ==> f.Valid()) && stop.Valid()
    }

    function Spell(): string {
      Line(words) + end.Spell()
    }

    /** The arguments that come out. */
    function Arguments(): seq<string> {
      match end
      case Finished => Kept(words)
      case Cut(fs, stop) =>
        var last := ValueOf(fs) + stop.Value();
        Values(words) + if last == "" then [] else [last]
    }
  }

  predicate AllGapped(ws: seq<Word>) {
    forall i :: 0 <= i < |ws| ==> ws[i].Valid() && ws[i].gap != ""
  }

  /** A text that does not begin with white space. */
  predicate Begun(text: string) {
    text != "" ==> !IsSpace(text[0])
  }

  /** The white space at the front, and the rest. */
  function Gap(text: string): (p: (string, string))
    ensures p.0 + p.1 == text && AllSpace(p.0) && Begun(p.1)
  {
    if text == "" || !IsSpace(text[0]) then ("", text)
    else
      var (gap, rest) := Gap(text[1..]);
      Assoc([text[0]], gap, rest);
      ([text[0]] + gap, rest)
  }

  /** The text up to the first q, and what follows it if there is one. */
  function Until(text: string, q: char): (p: (string, Option<string>))
    ensures q !in p.0
    ensures match p.1 case None => p.0 == text case Some(rest) => p.0 + ([q] + rest) == text
  {
    if text == "" then ("", None)
    else if text[0] == q then ("", Some(text[1..]))
    else
      var (front, rest) := Until(text[1..], q);
      ([text[0]] + front, rest)
  }

  /** The fragment at the head of a text, or how the text is cut short. */
  datatype Head = Whole(f: Fragment, rest: string) | Short(stop: Stop)

  function FirstFragment(text: string): (h: Head)
    requires text != "" && !IsSpace(text[0])
    ensures match h
            case Whole(f, rest) => f.Valid() && f.Spell() + rest == text && |rest| < |text|
            case Short(stop) => stop.Valid() && stop.Spell() == text
  {
    var c, more := text[0], text[1..];
    if c == '\\' then
      if more == "" then Short(Backslash) else Whole(Escaped(more[0]), more[1..])
    else if c == '\'' || c == '\"' then
      var (s, end) := Until(more, c);
      if end.None? then Short(Quoted(c, s))
      else
        assert [c] + s + [c] + end.value == [c] + (s + ([c] + end.value));
        Whole(if c == '\'' then Single(s) else Double(s), end.value)
    else Whole(Plain(c), more)
  }

  /** A reading of what follows becomes one of the whole. */
  function Prepend(f: Fragment, gap: string, r: Reading): Reading {
    if gap != "" then Reading([Word([f], gap)] + r.words, r.end)
    else if r.words != [] then Reading([Word([f] + r.words[0].fragments, r.words[0].gap)] + r.words[1..], r.end)
    else if r.end.Cut? then Reading([], Cut([f] + r.end.fragments, r.end.stop))
    else Reading([Word([f], "")], Finished)
  }

  lemma PrependIsValid(f: Fragment, gap: string, r: Reading)
    requires f.Valid() && AllSpace(gap) && r.Valid()
    ensures Prepend(f, gap, r).Valid()
  {
    var ws := Prepend(f, gap, r).words;
    if gap == "" && r.words != [] {
      assert ws[0].Valid();
      assert forall i :: 0 < i < |ws| ==> ws[i] == r.words[i];
    }
  }

  lemma PrependSpells(f: Fragment, gap: string, r: Reading)
    ensures Prepend(f, gap, r).Spell() == f.Spell() + gap + r.Spell()
  {
    if gap != "" {
      WordSpells(f, gap, r.words);
      Assoc(f.Spell() + gap, Line(r.words), r.end.Spell());
    } else if r.words != [] {
      FragmentSpells(f, r.words);
      Assoc(f.Spell(), Line(r.words), r.end.Spell());
      assert f.Spell() + gap == f.Spell();
    } else if r.end.Cut? {
      SpellingOfCons(f, r.end.fragments);
      Assoc(f.Spell(), SpellingOf(r.end.fragments), r.end.stop.Spell());
      assert f.Spell() + gap == f.Spell();
      assert "" + r.end.Spell() == r.end.Spell();
    } else {
      WordSpells(f, "", []);
      assert [Word([f], "")] + [] == [Word([f], "")];
    }
  }

  lemma WordSpells(f: Fragment, gap: string, ws: seq<Word>)
    ensures Line([Word([f], gap)] + ws) == f.Spell() + gap + Line(ws)
  {
    SpellingOfCons(f, []);
    assert [f] + [] == [f];
    LineOfCons(Word([f], gap), ws);
  }

  lemma FragmentSpells(f: Fragment, ws: seq<Word>)
    requires ws != []
    ensures Line([Word([f] + ws[0].fragments, ws[0].gap)] + ws[1..]) == f.Spell() + Line(ws)
  {
    SpellingOfCons(f, ws[0].fragments);
    LineOfCons(Word([f] + ws[0].fragments, ws[0].gap), ws[1..]);
    Assoc(f.Spell(), SpellingOf(ws[0].fragments), ws[0].gap);
    Assoc(f.Spell(), SpellingOf(ws[0].fragments) + ws[0].gap, Line(ws[1..]));
  }

  lemma SpellingOfCons(f: Fragment, fs: seq<Fragment>)
    ensures SpellingOf([f] + fs) == f.Spell() + SpellingOf(fs)
  {
    assert ([f] + fs)[1..] == fs;
  }

  lemma LineOfCons(w: Word, ws: seq<Word>)
    ensures Line([w] + ws) == SpellingOf(w.fragments) + w.gap + Line(ws)
  {
    assert ([w] + ws)[1..] == ws;
  }

  /** The reading of a text that does not begin with white space. */
  function Read(text: string): (r: Reading)
    requires Begun(text)
    decreases |text|
  {
    if text == "" then Reading([], Finished)
    else
      match FirstFragment(text)
      case Short(stop) => Reading([], Cut([], stop))
      case Whole(f, rest) =>
        var (gap, more) := Gap(rest);
        Prepend(f, gap, Read(more))
  }

  lemma {:induction false} ReadSpells(text: string)
    requires Begun(text)
    ensures Read(text).Valid() && Read(text).Spell() == text
    decreases |text|
  {
    if text != "" {
      var h := FirstFragment(text);
      if h.Whole? {
        var (gap, more) := Gap(h.rest);
        ReadSpells(more);
        PrependIsValid(h.f, gap, Read(more));
        PrependSpells(h.f, gap, Read(more));
        Assoc(h.f.Spell(), gap, more);
      } else {
        ShortSpells(h.stop);
      }
    }
  }

  lemma ShortSpells(stop: Stop)
    ensures Reading([], Cut([], stop)).Spell() == stop.Spell()
  {
    assert "" + stop.Spell() == stop.Spell();
  }

  lemma StopIsRead(m: Machine, stop: Stop)
    requires Outside(m) && stop.Valid()
    ensures var last := m.arg + stop.Value();
            Finish(Steps(m, stop.Spell())) == m.args + if last == "" then [] else [last]
  {
    match stop {
      case Backslash =>
        assert Steps(m, ['\\']) == Steps(Step(m, '\\'), []);
        assert m.arg + "" == m.arg;
      case Quoted(q, s) =>
        StepsOfConcat(m, [q], s);
        assert Steps(m, [q]) == Steps(Step(m, q), []);
        QuotedTextIsKept(Step(m, q), s);
    }
  }

  lemma CutIsRead(m: Machine, fs: seq<Fragment>, stop: Stop)
    requires Outside(m) && m.arg == "" && (forall f :: f in fs ==> f.Valid()) && stop.Valid()
    ensures var last := ValueOf(fs) + stop.Value();
            Finish(Steps(m, SpellingOf(fs) + stop.Spell())) == m.args + if last == "" then [] else [last]
  {
    if fs != [] {
      FragmentsAreRead(m, fs);
    }
    assert "" + ValueOf(fs) == ValueOf(fs);
    StepsOfConcat(m, SpellingOf(fs), stop.Spell());
    StopIsRead(Steps(m, SpellingOf(fs)), stop);
  }

  lemma {:induction false} GappedAreRead(m: Machine, ws: seq<Word>)
    requires Outside(m) && m.arg == "" && AllGapped(ws)
    ensures var m' := Steps(m, Line(ws)); Outside(m') && m'.arg == "" && m'.args == m.args + Values(ws)
    decreases |ws|
  {
    if ws == [] {
      assert m.args + [] == m.args;
    } else {
      var w, rest := ws[0], ws[1..];
      var m1 := Machine(Whitespace, "", m.args + [w.Value()]);
      GappedIsRead(m, ws);
      GappedAreRead(m1, rest);
      Assoc(m.args, [w.Value()], Values(rest));
      ValuesOfCons(ws);
    }
  }

  lemma ValuesOfCons(ws: seq<Word>)
    requires ws != []
    ensures Values(ws) == [ws[0].Value()] + Values(ws[1..])
  {
  }

  lemma GappedIsRead(m: Machine, ws: seq<Word>)
    requires Outside(m) && m.arg == "" && AllGapped(ws) && ws != []
    ensures Steps(m, Line(ws)) == Steps(Machine(Whitespace, "", m.args + [ws[0].Value()]), Line(ws[1..]))
  {
    WordIsRead(m, ws[0]);
    StepsOfConcat(m, SpellingOf(ws[0].fragments) + ws[0].gap, Line(ws[1..]));
  }

  lemma ReadingIsRead(m: Machine, r: Reading)
    requires Outside(m) && m.arg == "" && r.Valid()
    ensures Finish(Steps(m, r.Spell())) == m.args + r.Arguments()
  {
    match r.end {
      case Finished =>
        CommandIsRead(m, r.words);
        assert Line(r.words) + "" == Line(r.words);
      case Cut(fs, stop) =>
        GappedAreRead(m, r.words);
        StepsOfConcat(m, Line(r.words), SpellingOf(fs) + stop.Spell());
        CutIsRead(Steps(m, Line(r.words)), fs, stop);
        Assoc(m.args, Values(r.words), if ValueOf(fs) + stop.Value() == "" then [] else [ValueOf(fs) + stop.Value()]);
    }
  }

  lemma LeadIsRead(gap: string)
    requires gap != "" && AllSpace(gap)
    ensures Steps(Start, gap) == Machine(Whitespace, "", [""])
  {
    assert [] + [""] == [""];
    SpaceIsSkipped(Machine(Whitespace, "", [""]), gap[1..]);
  }

  lemma LineIsRead(gap: string, r: Reading)
    requires AllSpace(gap) && r.Valid()
    ensures Split(gap + r.Spell()) == (if gap == "" then [] else [""]) + r.Arguments()
  {
    if gap == "" {
      assert gap + r.Spell() == r.Spell();
      ReadingIsRead(Start, r);
    } else {
      LeadIsRead(gap);
      StepsOfConcat(Start, gap, r.Spell());
      ReadingIsRead(Machine(Whitespace, "", [""]), r);
    }
  }

  /** The white space that a line begins with, and the reading of the rest. */
  ghost predicate Describes(line: string, gap: string, r: Reading) {
    AllSpace(gap) && r.Valid() && line == gap + r.Spell()
  }

  lemma IsDescribed(line: string)
    ensures Describes(line, Gap(line).0, Read(Gap(line).1))
  {
    ReadSpells(Gap(line).1);
  }

  /** Every line is white space and then words, the last one perhaps cut short by the
      end of the line; and splitting gives an empty first argument for the white space,
      if there is any, the words, and the text of the last one as far as it goes. */
  lemma SplitReadsEveryLine(line: string)
    ensures exists gap, r :: Describes(line, gap, r)
    ensures forall gap, r :: Describes(line, gap, r) ==> Split(line) == (if gap == "" then [] else [""]) + r.Arguments()
  {
    IsDescribed(line);
    forall gap, r | Describes(line, gap, r)
      ensures Split(line) == (if gap == "" then [] else [""]) + r.Arguments()
    {
      LineIsRead(gap, r);
    }
  }

  // ----- a printer -----

  function QuoteChars(s: string): seq<Fragment> {
    seq(|s|, i requires 0 <= i < |s| => if IsSpecial(s[i]) then Escaped(s[i]) else Plain(s[i]))
  }

  function Quote(arg: string): seq<Fragment> {
    if arg == "" then [Single("")] else QuoteChars(arg)
  }

  lemma {:induction false} QuoteCharsKeep(s: string)
    ensures ValueOf(QuoteChars(s)) == s
    decreases |s|
  {
    if s != "" {
      assert QuoteChars(s)[1..] == QuoteChars(s[1..]);
      QuoteCharsKeep(s[1..]);
    }
  }

  /** The words of an argument list, a space after each, or only between them. */
  function Words(args: seq<string>, terminated: bool): seq<Word> {
    seq(|args|, i requires 0 <= i < |args| =>
      Word(Quote(args[i]), if terminated || i < |args| - 1 then " " else ""))
  }

  /** The quoted arguments joined by single spaces split into the same arguments
      if and only if the last one is not empty. With a space after the last one
      too, every argument list comes back. */
  lemma QuotingRoundTrip(args: seq<string>)
    ensures Split(Line(Words(args, false))) == args <==> args == [] || args[|args| - 1] != ""
    ensures Split(Line(Words(args, true))) == args
  {
    QuotedComesBack(args, false);
    QuotedComesBack(args, true);
  }

  lemma QuotedComesBack(args: seq<string>, terminated: bool)
    ensures Split(Line(Words(args, terminated))) == args <==> terminated || args == [] || args[|args| - 1] != ""
  {
    WordsAreCommand(args, terminated);
    WordsDropLast(args, terminated);
    SplitReadsCommands(Words(args, terminated));
  }

  lemma WordsDropLast(args: seq<string>, terminated: bool)
    requires Values(Words(args, terminated)) == args
    ensures DropsLast(Words(args, terminated)) <==> !terminated && args != [] && args[|args| - 1] == ""
  {
    var ws := Words(args, terminated);
    assert args != [] ==> ws[|ws| - 1].Value() == Values(ws)[|ws| - 1];
  }

  // ----- the two kinds of quotes -----

  /** Every argument between quotes, with a space after it. */
  function InQuotes(q: char, args: seq<string>): string {
    if args == [] then "" else [q] + args[0] + [q] + " " + InQuotes(q, args[1..])
  }

  /** Between quotes of either kind everything but that quote is kept: spaces, backslashes,
      the other quote. */
  lemma QuotedTextComesBack(q: char, args: seq<string>)
    requires (q == '\'' || q == '\"') && forall a :: a in args ==> q !in a
    ensures Split(InQuotes(q, args)) == args
  {
    InQuotesIsRead(Start, q, args);
  }

  lemma {:induction false} InQuotesIsRead(m: Machine, q: char, args: seq<string>)
    requires Outside(m) && m.arg == "" && (q == '\'' || q == '\"') && forall a :: a in args ==> q !in a
    ensures Finish(Steps(m, InQuotes(q, args))) == m.args + args
    decreases |args|
  {
    if args != [] {
      var a, rest := args[0], InQuotes(q, args[1..]);
      var m1 := m.(arg := "" + a, state := Basic);
      QuotesAreRead(m, q, if q == '\'' then SingleQuote else DoubleQuote, a);
      assert "" + a == a;
      StepsOfConcat(m, [q] + a + [q], " ");
      SpaceEnds(m1);
      StepsOfConcat(m, [q] + a + [q] + " ", rest);
      InQuotesIsRead(Machine(Whitespace, "", m.args + [a]), q, args[1..]);
      Assoc(m.args, [a], args[1..]);
      assert [a] + args[1..] == args;
    }
  }

  lemma SpaceEnds(m: Machine)
    requires m.state == Basic
    ensures Steps(m, " ") == Machine(Whitespace, "", m.args + [m.arg])
  {
    assert Steps(m, " ") == Steps(Step(m, ' '), []);
  }

  lemma QuoteIsValid(arg: string)
    ensures Quote(arg) != [] && (forall f :: f in Quote(arg) ==> f.Valid()) && ValueOf(Quote(arg)) == arg
  {
    QuoteCharsKeep(arg);
    if arg == "" {
      assert [Single("")][1..] == [];
    }
  }

  lemma WordsAreCommand(args: seq<string>, terminated: bool)
    ensures Command(Words(args, terminated)) && Values(Words(args, terminated)) == args
  {
    var ws := Words(args, terminated);
    forall i | 0 <= i < |ws| ensures ws[i].Valid() && ws[i].Value() == args[i] {
      QuoteIsValid(args[i]);
    }
  }
}
