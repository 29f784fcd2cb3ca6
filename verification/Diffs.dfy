/** The text layer of the upload script: three loops over the lines of a diff that
must agree on what a file's header is.
*/
module Diffs {
  import opened Options
  import opened Strings

  // ----- str.splitlines(True) -----

  predicate StartsWith(t: string, c: char) {
    t != "" && t[0] == c
  }

  /** The length of the first line with its break: "\n", "\r" or "\r\n". */
  function LineLen(t: string): (n: nat)
    requires t != ""
    ensures 0 < n <= |t|
  {
    if t[0] == '\n' then 1
    else if t[0] == '\r' then (if StartsWith(t[1..], '\n') then 2 else 1)
    else if |t| == 1 then 1
    else 1 + LineLen(t[1..])
  }

  function SplitLines(t: string): seq<string> {
    if t == "" then [] else [t[..LineLen(t)]] + SplitLines(t[LineLen(t)..])
  }

  /** l is the first line of l followed by rest. */
  predicate Ends(l: string, rest: string) {
    l != "" &&
    if l[0] == '\n' then |l| == 1
    else if l[0] == '\r' then l == "\r\n" || (|l| == 1 && !StartsWith(rest, '\n'))
    else if |l| == 1 then rest == ""
    else Ends(l[1..], rest)
  }

  lemma {:induction false} LineLenEnds(l: string, rest: string)
    requires l != ""
    ensures LineLen(l + rest) == |l| <==> Ends(l, rest)
    decreases |l|
  {
    var t := l + rest;
    assert t[1..] == l[1..] + rest;
    if |l| == 1 {
      assert t[1..] == rest;
    } else if l[0] == '\r' {
      assert t[1] == l[1];
    } else if l[0] != '\n' {
      LineLenEnds(l[1..], rest);
    }
  }

  lemma {:induction false} EndsStill(l: string, rest: string, other: string)
    requires Ends(l, rest)
    requires other != "" ==> rest != "" && (StartsWith(other, '\n') ==> StartsWith(rest, '\n'))
    ensures Ends(l, other)
    decreases |l|
  {
    if l[0] != '\n' && l[0] != '\r' && |l| > 1 {
      EndsStill(l[1..], rest, other);
    }
  }

  /** The lists that splitlines returns. */
  predicate WellCut(lines: seq<string>) {
    lines != [] ==> Ends(lines[0], Concat(lines[1..])) && WellCut(lines[1..])
  }

  lemma {:induction false} SplitLinesCuts(t: string)
    ensures WellCut(SplitLines(t)) && Concat(SplitLines(t)) == t
    decreases |t|
  {
    if t != "" {
      var n := LineLen(t);
      SplitLinesCuts(t[n..]);
      assert t == t[..n] + t[n..] && SplitLines(t)[1..] == SplitLines(t[n..]);
      LineLenEnds(t[..n], t[n..]);
    }
  }

  lemma {:induction false} CutsComeBack(lines: seq<string>)
    requires WellCut(lines)
    ensures SplitLines(Concat(lines)) == lines
    decreases |lines|
  {
    if lines != [] {
      LineLenEnds(lines[0], Concat(lines[1..]));
      CutsComeBack(lines[1..]);
      assert Concat(lines)[..|lines[0]|] == lines[0];
      assert Concat(lines)[|lines[0]|..] == Concat(lines[1..]);
    }
  }

  /** A line has no break but at its end. */
  predicate OneBreak(l: string) {
    && (forall j :: 0 <= j < |l| - 1 ==> l[j] != '\n')
    && forall j :: 0 <= j < |l| && l[j] == '\r' ==> j == |l| - 1 || (j == |l| - 2 && l[|l| - 1] == '\n')
  }

  predicate EndsInBreak(l: string) {
    l != "" && (l[|l| - 1] == '\n' || l[|l| - 1] == '\r')
  }

  lemma {:induction false} FirstLineBreaks(t: string)
    requires t != ""
    ensures var l := t[..LineLen(t)];
            OneBreak(l) && (|l| < |t| ==> EndsInBreak(l) && (l[|l| - 1] == '\r' ==> t[|l|] != '\n'))
    decreases |t|
  {
    var n := LineLen(t);
    if t[0] != '\n' && t[0] != '\r' && |t| > 1 {
      FirstLineBreaks(t[1..]);
      var l := t[1..][..n - 1];
      assert t[..n] == [t[0]] + l;
      assert n < |t| ==> t[n] == t[1..][n - 1];
    }
  }

  /** Lines that end at "\n", "\r" or "\r\n", all but perhaps the last, and nowhere else. */
  predicate EndAtBreaks(ls: seq<string>) {
    ls != [] ==>
      && ls[0] != "" && OneBreak(ls[0]) && EndAtBreaks(ls[1..])
      && (|ls| > 1 ==> EndsInBreak(ls[0]) && ls[1] != "" && (ls[0][|ls[0]| - 1] == '\r' ==> ls[1][0] != '\n'))
  }

  lemma {:induction false} LinesEndAtBreaks(t: string)
    ensures EndAtBreaks(SplitLines(t))
    decreases |t|
  {
    if t != "" {
      var n := LineLen(t);
      FirstLineBreaks(t);
      LinesEndAtBreaks(t[n..]);
      assert SplitLines(t) == [t[..n]] + SplitLines(t[n..]) && SplitLines(t)[1..] == SplitLines(t[n..]);
      if n < |t| {
        assert SplitLines(t)[1] == t[n..][..LineLen(t[n..])];
      }
    }
  }

  // ----- header lines -----

  predicate IsIndex(line: string) {
    "Index:" <= line
  }

  predicate IsProperty(line: string) {
    "Property changes on:" <= line
  }

  predicate IsHeader(line: string) {
    IsIndex(line) || IsProperty(line)
  }

  function AfterColon(t: string): string {
    if t == "" then "" else if t[0] == ':' then t[1..] else AfterColon(t[1..])
  }

  /** What follows the first colon. */
  lemma {:induction false} AfterFirstColon(t: string) returns (a: string)
    requires ':' in t
    ensures t == a + ":" + AfterColon(t) && ':' !in a
    decreases |t|
  {
    if t[0] == ':' {
      a := "";
    } else {
      a := AfterFirstColon(t[1..]);
      a := [t[0]] + a;
    }
  }

  function Trim(t: string): string {
    if t == "" then ""
    else if IsSpace(t[0]) then Trim(t[1..])
    else if IsSpace(t[|t| - 1]) then Trim(t[..|t| - 1])
    else t
  }

  function Slashes(t: string): (r: string)
    ensures |r| == |t| && forall i :: 0 <= i < |t| ==> r[i] == if t[i] == '\\' then '/' else t[i]
    ensures '\\' !in t ==> r == t
  {
    if t == "" then "" else [if t[0] == '\\' then '/' else t[0]] + Slashes(t[1..])
  }

  /** Trimming takes all the white space from both ends and nothing else. */
  lemma {:induction false} TrimTakesEnds(t: string) returns (a: string, b: string)
    ensures t == a + Trim(t) + b && AllSpace(a) && AllSpace(b)
    ensures Trim(t) != "" ==> !IsSpace(Trim(t)[0]) && !IsSpace(Trim(t)[|Trim(t)| - 1])
    decreases |t|
  {
    if t == "" {
      a, b := "", "";
    } else if IsSpace(t[0]) {
      a, b := TrimTakesEnds(t[1..]);
      a := [t[0]] + a;
    } else if IsSpace(t[|t| - 1]) {
      a, b := TrimTakesEnds(t[..|t| - 1]);
      b := b + [t[|t| - 1]];
    } else {
      a, b := "", "";
    }
  }

  function RawName(line: string): string {
    Trim(AfterColon(line))
  }

  /** A text with no white space at its ends. */
  predicate Bare(t: string) {
    t == "" || (!IsSpace(t[0]) && !IsSpace(t[|t| - 1]))
  }

  lemma {:induction false} TrimOf(a: string, t: string, b: string)
    requires AllSpace(a) && AllSpace(b) && Bare(t)
    ensures Trim(a + t + b) == t
    decreases |a| + |b|
  {
    var all := a + t + b;
    if a != "" {
      assert all[1..] == a[1..] + t + b;
      TrimOf(a[1..], t, b);
    } else if t == "" {
      if b != "" {
        assert all[1..] == "" + "" + b[1..];
        TrimOf("", "", b[1..]);
      }
    } else if b != "" {
      assert all[..|all| - 1] == "" + t + b[..|b| - 1];
      TrimOf("", t, b[..|b| - 1]);
    } else {
      assert all == t;
    }
  }

  lemma {:induction false} AfterColonOf(head: string, rest: string)
    requires ':' !in head
    ensures AfterColon(head + ":" + rest) == rest
  {
    var all := head + ":" + rest;
    if head == "" {
      assert all[1..] == rest;
    } else {
      assert all[1..] == head[1..] + ":" + rest;
      AfterColonOf(head[1..], rest);
    }
  }

  /** The name is read from a header line whatever white space is around it. */
  lemma NameIsRead(head: string, a: string, name: string, b: string)
    requires ':' !in head && AllSpace(a) && AllSpace(b) && Bare(name)
    ensures RawName(head + ":" + (a + name + b)) == name
    ensures |Name(head + ":" + (a + name + b))| == |name|
    ensures forall i :: 0 <= i < |name| ==>
              Name(head + ":" + (a + name + b))[i] == if name[i] == '\\' then '/' else name[i]
  {
    AfterColonOf(head, a + name + b);
    TrimOf(a, name, b);
  }

  /** The name as filtering and GetBaseFiles read it. */
  function Name(line: string): string {
    Slashes(RawName(line))
  }

  // ----- SplitPatch -----

  datatype Piece = Piece(name: string, text: string)

  /** The name by which a line opens a new piece, if it does. */
  function NewName(line: string, current: Option<string>): Option<string> {
    if IsIndex(line) then
      if RawName(line) != "" then Some(RawName(line)) else None
    else if IsProperty(line) && Some(Name(line)) != current && Name(line) != "" then Some(Name(line))
    else None
  }

  function Flush(current: Option<string>, diff: seq<string>): seq<Piece> {
    if current.Some? && current.value != "" && diff != [] then [Piece(current.value, Concat(diff))] else []
  }

  /** The pieces still to come, with `diff` the lines gathered for the current one. */
  function PiecesFrom(lines: seq<string>, current: Option<string>, diff: seq<string>): seq<Piece> {
    if lines == [] then Flush(current, diff)
    else match NewName(lines[0], current)
      case Some(n) => Flush(current, diff) + PiecesFrom(lines[1..], Some(n), [lines[0]])
      case None => PiecesFrom(lines[1..], current, diff + [lines[0]])
  }

  function Pieces(lines: seq<string>): seq<Piece> {
    PiecesFrom(lines, None, [])
  }

  lemma PiecesStep(lines: seq<string>, i: nat, done: seq<Piece>, current: Option<string>, diff: seq<string>)
    requires i < |lines|
    ensures done + PiecesFrom(lines[i..], current, diff)
            == match NewName(lines[i], current)
               case Some(n) => (done + Flush(current, diff)) + PiecesFrom(lines[i + 1..], Some(n), [lines[i]])
               case None => done + PiecesFrom(lines[i + 1..], current, diff + [lines[i]])
  {
    assert lines[i..][0] == lines[i] && lines[i..][1..] == lines[i + 1..];
    match NewName(lines[i], current) {
      case Some(n) =>
        var later := PiecesFrom(lines[i + 1..], Some(n), [lines[i]]);
        assert done + (Flush(current, diff) + later) == (done + Flush(current, diff)) + later;
      case None =>
    }
  }

  /** The first half of the loop body: the new name, if the line has one. */
  method ReadHeader(line: string, filename: Option<string>) returns (newFilename: Option<string>)
    ensures newFilename == NewName(line, filename)
  {
    newFilename := None;
    if IsIndex(line) {
      newFilename := Some(RawName(line));
    } else if IsProperty(line) {
      var temp := Name(line);
      if Some(temp) != filename {
        newFilename := Some(temp);
      }
    }
    if newFilename == Some("") {
      newFilename := None;
    }
  }

  method SplitPatch(data: string) returns (patches: seq<Piece>)
    ensures patches == Pieces(SplitLines(data))
  {
    var lines := SplitLines(data);
    patches := [];
    var filename: Option<string>, diff: seq<string> := None, [];
    for i := 0 to |lines|
      invariant patches + PiecesFrom(lines[i..], filename, diff) == Pieces(lines)
    {
      var line := lines[i];
      PiecesStep(lines, i, patches, filename, diff);
      var newFilename := ReadHeader(line, filename);
      if newFilename.Some? {
        if filename.Some? && filename.value != "" && diff != [] {
          patches := patches + [Piece(filename.value, Concat(diff))];
        }
        filename, diff := newFilename, [line];
      } else {
        diff := diff + [line];
      }
    }
    if filename.Some? && filename.value != "" && diff != [] {
      patches := patches + [Piece(filename.value, Concat(diff))];
    }
  }

  // ----- where the pieces begin -----

  /** A header that opens a piece of this name: a named "Index:" line, or a property
      header of a file that is not the one open. */
  predicate Begins(line: string, name: string, open: Option<string>) {
    name != ""
    && (("Index:" <= line && name == RawName(line))
        || ("Property changes on:" <= line && name == Name(line) && open != Some(name)))
  }

  /** Any other line. */
  predicate Continues(line: string, open: Option<string>) {
    && ("Index:" <= line ==> RawName(line) == "")
    && ("Property changes on:" <= line ==> Name(line) == "" || Some(Name(line)) == open)
  }

  function EndOf(lines: seq<string>, starts: seq<nat>, k: nat): nat {
    if k + 1 < |starts| then starts[k + 1] else |lines|
  }

  /** The k-th piece is the lines from its start to the next, of which only the first
      could open a piece; `seen` lines are taken for granted. */
  ghost predicate IsPiece(lines: seq<string>, seen: nat, starts: seq<nat>, ps: seq<Piece>, k: nat)
    requires k < |starts| == |ps|
  {
    var end := EndOf(lines, starts, k);
    && starts[k] < end <= |lines|
    && ps[k].text == Concat(lines[starts[k]..end])
    && (seen <= starts[k] ==> Begins(lines[starts[k]], ps[k].name, if k == 0 then None else Some(ps[k - 1].name)))
    && forall i :: starts[k] < i < end && seen <= i ==> Continues(lines[i], Some(ps[k].name))
  }

  /** The pieces of the lines, with the places where they start. */
  ghost predicate IsSplit(lines: seq<string>, starts: seq<nat>, ps: seq<Piece>) {
    && |starts| == |ps| && (forall k :: 0 <= k < |ps| ==> IsPiece(lines, 0, starts, ps, k))
    && forall i :: 0 <= i < (if starts == [] then |lines| else starts[0]) && i < |lines| ==> Continues(lines[i], None)
  }

  function Starts(lines: seq<string>, i: nat, current: Option<string>): seq<nat>
    requires i <= |lines|
    decreases |lines| - i
  {
    if i == |lines| then []
    else match NewName(lines[i], current)
      case Some(n) => [i] + Starts(lines, i + 1, Some(n))
      case None => Starts(lines, i + 1, current)
  }

  /** With a piece open since s. */
  ghost predicate IsSplitFrom(lines: seq<string>, i: nat, s: nat, name: string, starts: seq<nat>, ps: seq<Piece>) {
    && |starts| == |ps| > 0 && starts[0] == s && ps[0].name == name
    && (|starts| > 1 ==> i <= starts[1])
    && forall k :: 0 <= k < |ps| ==> IsPiece(lines, i, starts, ps, k)
  }

  lemma {:induction false} OpenPieceSplits(lines: seq<string>, i: nat, s: nat, name: string)
    requires s < i <= |lines| && name != ""
    ensures IsSplitFrom(lines, i, s, name, [s] + Starts(lines, i, Some(name)), PiecesFrom(lines[i..], Some(name), lines[s..i]))
    decreases |lines| - i
  {
    if i < |lines| {
      assert lines[i..][0] == lines[i] && lines[i..][1..] == lines[i + 1..];
      match NewName(lines[i], Some(name)) {
        case Some(n) =>
          OpenPieceSplits(lines, i + 1, i, n);
          assert lines[i..i + 1] == [lines[i]];
          PieceCloses(lines, i, s, name, n, [i] + Starts(lines, i + 1, Some(n)), PiecesFrom(lines[i + 1..], Some(n), [lines[i]]));
        case None =>
          assert lines[s..i] + [lines[i]] == lines[s..i + 1];
          OpenPieceSplits(lines, i + 1, s, name);
          PieceGrows(lines, i, s, name, [s] + Starts(lines, i + 1, Some(name)),
                     PiecesFrom(lines[i + 1..], Some(name), lines[s..i + 1]));
      }
    }
  }

  lemma PieceGrows(lines: seq<string>, i: nat, s: nat, name: string, starts: seq<nat>, ps: seq<Piece>)
    requires s < i < |lines| && IsSplitFrom(lines, i + 1, s, name, starts, ps) && NewName(lines[i], Some(name)).None?
    ensures IsSplitFrom(lines, i, s, name, starts, ps)
  {
    forall k | 0 <= k < |ps| ensures IsPiece(lines, i, starts, ps, k) {
      assert IsPiece(lines, i + 1, starts, ps, k);
      if k > 0 {
        StartsGrow(lines, i + 1, s, name, starts, ps, k);
      }
    }
  }

  lemma {:induction false} StartsGrow(lines: seq<string>, i: nat, s: nat, name: string, starts: seq<nat>, ps: seq<Piece>, k: nat)
    requires IsSplitFrom(lines, i, s, name, starts, ps) && 0 < k < |starts|
    ensures i <= starts[k]
    decreases k
  {
    if k > 1 {
      StartsGrow(lines, i, s, name, starts, ps, k - 1);
      assert IsPiece(lines, i, starts, ps, k - 1);
    }
  }

  lemma PieceCloses(lines: seq<string>, i: nat, s: nat, name: string, n: string, starts: seq<nat>, ps: seq<Piece>)
    requires s < i < |lines| && NewName(lines[i], Some(name)) == Some(n)
    requires IsSplitFrom(lines, i + 1, i, n, starts, ps)
    ensures IsSplitFrom(lines, i, s, name, [s] + starts, [Piece(name, Concat(lines[s..i]))] + ps)
  {
    var starts', ps' := [s] + starts, [Piece(name, Concat(lines[s..i]))] + ps;
    forall k | 0 <= k < |ps'| ensures IsPiece(lines, i, starts', ps', k) {
      if k > 0 {
        assert IsPiece(lines, i + 1, starts, ps, k - 1);
        assert EndOf(lines, starts', k) == EndOf(lines, starts, k - 1);
        if k > 1 {
          StartsGrow(lines, i + 1, i, n, starts, ps, k - 1);
        }
      }
    }
  }

  lemma {:induction false} SplitsFromTheFirst(lines: seq<string>, i: nat)
    requires i <= |lines| && forall j :: 0 <= j < i ==> Continues(lines[j], None)
    ensures IsSplit(lines, Starts(lines, i, None), PiecesFrom(lines[i..], None, lines[..i]))
    decreases |lines| - i
  {
    if i < |lines| {
      assert lines[i..][0] == lines[i] && lines[i..][1..] == lines[i + 1..];
      match NewName(lines[i], None) {
        case Some(n) =>
          OpenPieceSplits(lines, i + 1, i, n);
          assert lines[i..i + 1] == [lines[i]];
          var ps := PiecesFrom(lines[i + 1..], Some(n), [lines[i]]);
          FirstPieceOpens(lines, i, n, Starts(lines, i, None), ps);
          assert [] + ps == ps;
        case None =>
          assert lines[..i] + [lines[i]] == lines[..i + 1];
          SplitsFromTheFirst(lines, i + 1);
      }
    }
  }

  lemma FirstPieceOpens(lines: seq<string>, i: nat, n: string, starts: seq<nat>, ps: seq<Piece>)
    requires i < |lines| && NewName(lines[i], None) == Some(n) && IsSplitFrom(lines, i + 1, i, n, starts, ps)
    requires forall j :: 0 <= j < i ==> Continues(lines[j], None)
    ensures IsSplit(lines, starts, ps)
  {
    forall k | 0 <= k < |ps| ensures IsPiece(lines, 0, starts, ps, k) {
      assert IsPiece(lines, i + 1, starts, ps, k);
      if k > 0 {
        StartsGrow(lines, i + 1, i, n, starts, ps, k);
      }
    }
  }

  /** Exactly the named "Index:" lines, and the named property headers of a file other
      than the one open, begin a piece; it has that line's name and goes on to the next.
      So a property header of the open file stays with it. */
  lemma SplitIsExact(lines: seq<string>)
    ensures exists starts :: IsSplit(lines, starts, Pieces(lines))
  {
    assert lines[0..] == lines && lines[..0] == [];
    SplitsFromTheFirst(lines, 0);
    assert IsSplit(lines, Starts(lines, 0, None), Pieces(lines));
  }

  lemma BeginsOrContinues(line: string, name: string, open: Option<string>)
    requires Begins(line, name, open)
    ensures !Continues(line, open)
    ensures forall n :: Begins(line, n, open) ==> n == name
  {
  }

  /** Two splits that agree on what is open agree on where the next piece starts. */
  lemma NextStartsBefore(lines: seq<string>, s1: seq<nat>, p1: seq<Piece>, s2: seq<nat>, p2: seq<Piece>, k: nat)
    requires IsSplit(lines, s1, p1) && IsSplit(lines, s2, p2) && k < |s1|
    requires k > 0 ==> k <= |s2| && s1[k - 1] == s2[k - 1] && p1[k - 1].name == p2[k - 1].name
    ensures k < |s2| && s2[k] <= s1[k]
  {
    assert IsPiece(lines, 0, s1, p1, k);
    BeginsOrContinues(lines[s1[k]], p1[k].name, if k == 0 then None else Some(p1[k - 1].name));
    if k > 0 {
      assert IsPiece(lines, 0, s1, p1, k - 1) && IsPiece(lines, 0, s2, p2, k - 1);
    }
  }

  /** There is no other such split. */
  lemma {:induction false} SplitIsUnique(lines: seq<string>, s1: seq<nat>, p1: seq<Piece>, s2: seq<nat>, p2: seq<Piece>, k: nat)
    requires IsSplit(lines, s1, p1) && IsSplit(lines, s2, p2) && k <= |s1|
    ensures k <= |s2| && forall j :: 0 <= j < k ==> s1[j] == s2[j] && p1[j].name == p2[j].name
    decreases k
  {
    if k > 0 {
      SplitIsUnique(lines, s1, p1, s2, p2, k - 1);
      NextStartsBefore(lines, s1, p1, s2, p2, k - 1);
      NextStartsBefore(lines, s2, p2, s1, p1, k - 1);
      assert IsPiece(lines, 0, s1, p1, k - 1) && IsPiece(lines, 0, s2, p2, k - 1);
      BeginsOrContinues(lines[s1[k - 1]], p1[k - 1].name, if k == 1 then None else Some(p1[k - 2].name));
    }
  }

  /** So the pieces are the only split there is. */
  lemma PiecesAreTheSplit(lines: seq<string>, ps: seq<Piece>)
    ensures ps == Pieces(lines) <==> exists starts :: IsSplit(lines, starts, ps)
  {
    SplitIsExact(lines);
    if s2 :| IsSplit(lines, s2, ps) {
      var s1, p1 :| p1 == Pieces(lines) && IsSplit(lines, s1, p1);
      SplitIsUnique(lines, s1, p1, s2, ps, |s1|);
      SplitIsUnique(lines, s2, ps, s1, p1, |s2|);
      forall k | 0 <= k < |ps| ensures p1[k] == ps[k] {
        assert IsPiece(lines, 0, s1, p1, k) && IsPiece(lines, 0, s2, ps, k);
      }
    }
  }

  // ----- filterDiffByPattern -----

  /** The lines kept: those under a header whose name is wanted. */
  function Kept(lines: seq<string>, keep: string -> bool, skip: bool): seq<string> {
    if lines == [] then []
    else
      var skip' := if IsHeader(lines[0]) then !keep(Name(lines[0])) else skip;
      (if skip' then [] else [lines[0]]) + Kept(lines[1..], keep, skip')
  }

  function Filtered(t: string, keep: string -> bool): string {
    Concat(Kept(SplitLines(t), keep, true))
  }

  /** Which names an include and an exclude list let through. */
  datatype Patterns = Patterns(include_: Option<set<string>>, exclude: Option<set<string>>) {
    predicate Passes(name: string) {
      (include_.Some? ==> name in include_.value) && (exclude.Some? ==> name !in exclude.value)
    }
  }

  method FilterPass(text: string, files: set<string>, wanted: bool) returns (r: string)
    ensures r == Filtered(text, n => (n in files) == wanted)
  {
    var lines := SplitLines(text);
    ghost var keep := n => (n in files) == wanted;
    r := "";
    var skip := true;
    for i := 0 to |lines|
      invariant r + Concat(Kept(lines[i..], keep, skip)) == Filtered(text, keep)
    {
      var line := lines[i];
      KeptStep(lines, i, keep, skip, r);
      if IsHeader(line) {
        if (Name(line) in files) == wanted {
          skip := false;
          r := r + line;
        } else {
          skip := true;
        }
      } else if !skip {
        r := r + line;
      }
    }
  }

  lemma KeptStep(lines: seq<string>, i: nat, keep: string -> bool, skip: bool, r: string)
    requires i < |lines|
    ensures var skip' := if IsHeader(lines[i]) then !keep(Name(lines[i])) else skip;
            r + Concat(Kept(lines[i..], keep, skip))
            == (if skip' then r else r + lines[i]) + Concat(Kept(lines[i + 1..], keep, skip'))
  {
    var skip' := if IsHeader(lines[i]) then !keep(Name(lines[i])) else skip;
    assert lines[i..][0] == lines[i] && lines[i..][1..] == lines[i + 1..];
    var later := Kept(lines[i + 1..], keep, skip');
    assert ([lines[i]] + later)[1..] == later && [] + later == later;
    assert r + (lines[i] + Concat(later)) == (r + lines[i]) + Concat(later);
  }

  /** Without either list the diff is left alone. */
  method FilterDiffByPattern(text: string, patterns: Patterns) returns (r: string)
    ensures patterns.include_.None? && patterns.exclude.None? ==> r == text
    ensures patterns.include_.Some? || patterns.exclude.Some? ==> r == Filtered(text, n => patterns.Passes(n))
  {
    r := text;
    if patterns.include_.Some? {
      r := FilterPass(r, patterns.include_.value, true);
      ghost var k1 := n => (n in patterns.include_.value) == true;
      if patterns.exclude.None? {
        KeptOnly(SplitLines(text), k1, n => patterns.Passes(n), true);
      }
    }
    if patterns.exclude.Some? {
      ghost var r1 := r;
      r := FilterPass(r, patterns.exclude.value, false);
      ghost var k2 := n => (n in patterns.exclude.value) == false;
      if patterns.include_.Some? {
        ghost var k1 := n => (n in patterns.include_.value) == true;
        TwoPasses(text, k1, k2);
        KeptOnly(SplitLines(text), n => k1(n) && k2(n), n => patterns.Passes(n), true);
      } else {
        KeptOnly(SplitLines(text), k2, n => patterns.Passes(n), true);
      }
    }
  }

  lemma {:induction false} KeptOnly(lines: seq<string>, k1: string -> bool, k2: string -> bool, skip: bool)
    requires forall n :: k1(n) == k2(n)
    ensures Kept(lines, k1, skip) == Kept(lines, k2, skip)
    decreases |lines|
  {
    if lines != [] {
      KeptOnly(lines[1..], k1, k2, if IsHeader(lines[0]) then !k1(Name(lines[0])) else skip);
    }
  }

  // ----- two passes are one -----

  lemma {:induction false} KeptTwice(lines: seq<string>, k1: string -> bool, k2: string -> bool, s1: bool, s2: bool)
    ensures Kept(Kept(lines, k1, s1), k2, s2) == Kept(lines, n => k1(n) && k2(n), s1 || s2)
    decreases |lines|
  {
    if lines != [] {
      var l, name := lines[0], Name(lines[0]);
      var s1' := if IsHeader(l) then !k1(name) else s1;
      var later := Kept(lines[1..], k1, s1');
      if s1' {
        assert Kept(lines, k1, s1) == later;
        KeptTwice(lines[1..], k1, k2, s1', s2);
      } else {
        assert ([l] + later)[1..] == later;
        KeptTwice(lines[1..], k1, k2, s1', if IsHeader(l) then !k2(name) else s2);
      }
    }
  }

  /** The first kept line is a header or was first all along. */
  lemma {:induction false} FirstKept(lines: seq<string>, keep: string -> bool, skip: bool)
    ensures var ks := Kept(lines, keep, skip);
            ks == [] || IsHeader(ks[0]) || (!skip && lines != [] && ks[0] == lines[0])
    decreases |lines|
  {
    if lines != [] {
      FirstKept(lines[1..], keep, if IsHeader(lines[0]) then !keep(Name(lines[0])) else skip);
    }
  }

  lemma WellCutLine(lines: seq<string>)
    requires WellCut(lines) && lines != []
    ensures lines[0] != "" && Concat(lines) != "" && Concat(lines)[0] == lines[0][0]
  {
  }

  lemma WellCutCons(l: string, rest: seq<string>)
    requires Ends(l, Concat(rest)) && WellCut(rest)
    ensures WellCut([l] + rest)
  {
    assert ([l] + rest)[1..] == rest;
  }

  /** Dropping the pieces not wanted joins no two lines: the text kept splits into
      the lines kept. */
  lemma {:induction false} KeptIsWellCut(lines: seq<string>, keep: string -> bool, skip: bool)
    requires WellCut(lines)
    ensures WellCut(Kept(lines, keep, skip))
    decreases |lines|
  {
    if lines != [] {
      var skip' := if IsHeader(lines[0]) then !keep(Name(lines[0])) else skip;
      var later := Kept(lines[1..], keep, skip');
      KeptIsWellCut(lines[1..], keep, skip');
      if skip' {
        assert [] + later == later;
      } else {
        FirstKept(lines[1..], keep, skip');
        if later != [] {
          WellCutLine(later);
          WellCutLine(lines[1..]);
          assert IsHeader(later[0]) ==> later[0][0] == 'I' || later[0][0] == 'P';
        }
        EndsStill(lines[0], Concat(lines[1..]), Concat(later));
        WellCutCons(lines[0], later);
      }
    }
  }

  lemma TwoPasses(t: string, k1: string -> bool, k2: string -> bool)
    ensures Filtered(Filtered(t, k1), k2) == Filtered(t, n => k1(n) && k2(n))
  {
    SplitLinesCuts(t);
    KeptIsWellCut(SplitLines(t), k1, true);
    CutsComeBack(Kept(SplitLines(t), k1, true));
    KeptTwice(SplitLines(t), k1, k2, true, true);
  }

  // ----- GetBaseFiles -----

  ghost function BaseKeys(lines: seq<string>): set<string> {
    set i | 0 <= i < |lines| && IsHeader(lines[i]) :: Name(lines[i])
  }

  /** The keys of the dictionary it builds. */
  method GetBaseFiles(data: string) returns (files: set<string>)
    ensures files == BaseKeys(SplitLines(data))
  {
    var lines := SplitLines(data);
    files := {};
    for i := 0 to |lines|
      invariant files == BaseKeys(lines[..i])
    {
      assert lines[..i + 1] == lines[..i] + [lines[i]];
      BaseKeysOfSnoc(lines[..i], lines[i]);
      if IsHeader(lines[i]) {
        files := files + {Name(lines[i])};
      }
    }
    assert lines[..|lines|] == lines;
  }

  // ----- agreement -----

  /** Every header names a file, and no "Index:" name has a backslash. */
  predicate HeadersClean(lines: seq<string>) {
    forall i :: 0 <= i < |lines| && IsHeader(lines[i])
                ==> Name(lines[i]) != "" && (IsIndex(lines[i]) ==> '\\' !in RawName(lines[i]))
  }

  function Texts(ps: seq<Piece>, keep: string -> bool): string {
    if ps == [] then "" else (if keep(ps[0].name) then ps[0].text else "") + Texts(ps[1..], keep)
  }

  lemma {:induction false} TextsOfConcat(a: seq<Piece>, b: seq<Piece>, keep: string -> bool)
    ensures Texts(a + b, keep) == Texts(a, keep) + Texts(b, keep)
    decreases |a|
  {
    if a == [] {
      assert a + b == b;
    } else {
      assert (a + b)[1..] == a[1..] + b;
      TextsOfConcat(a[1..], b, keep);
    }
  }

  /** Splitting loses nothing: the piece texts are the diff from the first line that
      names a file on. */
  function FromFirstName(lines: seq<string>): seq<string> {
    if lines == [] || NewName(lines[0], None).Some? then lines else FromFirstName(lines[1..])
  }

  lemma {:induction false} OpenPieceLosesNothing(lines: seq<string>, name: string, diff: seq<string>)
    requires name != "" && diff != []
    ensures Texts(PiecesFrom(lines, Some(name), diff), n => true) == Concat(diff + lines)
    decreases |lines|
  {
    var all := n => true;
    var now := Flush(Some(name), diff);
    assert Texts(now, all) == Concat(diff) by { assert now[1..] == []; }
    if lines == [] {
      assert diff + lines == diff;
    } else {
      match NewName(lines[0], Some(name)) {
        case Some(n) =>
          OpenPieceLosesNothing(lines[1..], n, [lines[0]]);
          TextsOfConcat(now, PiecesFrom(lines[1..], Some(n), [lines[0]]), all);
          assert [lines[0]] + lines[1..] == lines;
          ConcatOfConcat(diff, lines);
        case None =>
          OpenPieceLosesNothing(lines[1..], name, diff + [lines[0]]);
          assert (diff + [lines[0]]) + lines[1..] == diff + lines;
      }
    }
  }

  lemma {:induction false} NoPieceYet(lines: seq<string>, diff: seq<string>)
    ensures var rest := FromFirstName(lines);
            PiecesFrom(lines, None, diff)
            == if rest == [] then [] else PiecesFrom(rest[1..], NewName(rest[0], None), [rest[0]])
    decreases |lines|
  {
    if lines != [] && NewName(lines[0], None).None? {
      NoPieceYet(lines[1..], diff + [lines[0]]);
    }
  }

  lemma SplittingLosesNothing(lines: seq<string>)
    ensures Texts(Pieces(lines), n => true) == Concat(FromFirstName(lines))
  {
    var rest := FromFirstName(lines);
    NoPieceYet(lines, []);
    if rest != [] {
      FirstNameNames(lines);
      OpenPieceLosesNothing(rest[1..], NewName(rest[0], None).value, [rest[0]]);
      assert [rest[0]] + rest[1..] == rest;
    }
  }

  lemma {:induction false} FirstNameNames(lines: seq<string>)
    ensures var rest := FromFirstName(lines);
            rest != [] ==> NewName(rest[0], None).Some?
    decreases |lines|
  {
    if lines != [] && NewName(lines[0], None).None? {
      FirstNameNames(lines[1..]);
    }
  }

  /** A line that opens a piece of this name, as SplitPatch reads it. */
  predicate Opens(line: string, name: string) {
    (IsIndex(line) && RawName(line) == name) || (IsProperty(line) && Name(line) == name)
  }

  /** Every piece starts with its own header line. */
  lemma {:induction false} PiecesStartWithTheirHeader(lines: seq<string>, current: Option<string>, diff: seq<string>)
    requires current.Some? ==> diff != [] && Opens(diff[0], current.value)
    ensures forall p :: p in PiecesFrom(lines, current, diff) ==>
              exists l :: (l in lines || (diff != [] && l == diff[0])) && Opens(l, p.name) && l <= p.text
    decreases |lines|
  {
    forall p | p in Flush(current, diff) ensures Opens(diff[0], p.name) && diff[0] <= p.text {
      assert p.text == diff[0] + Concat(diff[1..]);
    }
    if lines != [] {
      match NewName(lines[0], current) {
        case Some(n) => PiecesStartWithTheirHeader(lines[1..], Some(n), [lines[0]]);
        case None => PiecesStartWithTheirHeader(lines[1..], current, diff + [lines[0]]);
      }
    }
  }

  ghost predicate Listed(ps: seq<Piece>, name: string) {
    exists k :: 0 <= k < |ps| && ps[k].name == name && ps[k].text != ""
  }

  lemma ListedInConcat(a: seq<Piece>, b: seq<Piece>, name: string)
    requires Listed(a, name) || Listed(b, name)
    ensures Listed(a + b, name)
  {
    if Listed(a, name) {
      var k :| 0 <= k < |a| && a[k].name == name && a[k].text != "";
      assert (a + b)[k] == a[k];
    } else {
      var k :| 0 <= k < |b| && b[k].name == name && b[k].text != "";
      assert (a + b)[|a| + k] == b[k];
    }
  }

  lemma {:induction false} OpenPieceIsListed(lines: seq<string>, name: string, diff: seq<string>)
    requires name != "" && Concat(diff) != ""
    ensures Listed(PiecesFrom(lines, Some(name), diff), name)
    decreases |lines|
  {
    var now := Flush(Some(name), diff);
    assert now[0].name == name;
    assert Listed(now, name);
    if lines != [] {
      match NewName(lines[0], Some(name)) {
        case Some(n) => ListedInConcat(now, PiecesFrom(lines[1..], Some(n), [lines[0]]), name);
        case None =>
          ConcatOfConcat(diff, [lines[0]]);
          OpenPieceIsListed(lines[1..], name, diff + [lines[0]]);
      }
    }
  }

  /** An "Index:" line with a name always opens a piece of that very name. */
  lemma {:induction false} IndexIsListed(lines: seq<string>, current: Option<string>, diff: seq<string>, i: nat)
    requires i < |lines| && IsIndex(lines[i]) && RawName(lines[i]) != ""
    ensures Listed(PiecesFrom(lines, current, diff), RawName(lines[i]))
    decreases |lines|
  {
    var line, name := lines[0], NewName(lines[0], current);
    if name.None? {
      IndexIsListed(lines[1..], current, diff + [line], i - 1);
    } else {
      var later := PiecesFrom(lines[1..], name, [line]);
      if i == 0 {
        ConcatOne(line);
        OpenPieceIsListed(lines[1..], name.value, [line]);
      } else {
        IndexIsListed(lines[1..], name, [line], i - 1);
      }
      ListedInConcat(Flush(current, diff), later, RawName(lines[i]));
    }
  }

  lemma {:induction false} PiecesAreNamed(lines: seq<string>, current: Option<string>, diff: seq<string>)
    ensures forall p :: p in PiecesFrom(lines, current, diff) ==> p.name != ""
    decreases |lines|
  {
    if lines != [] {
      match NewName(lines[0], current) {
        case Some(n) => PiecesAreNamed(lines[1..], Some(n), [lines[0]]);
        case None => PiecesAreNamed(lines[1..], current, diff + [lines[0]]);
      }
    }
  }

  ghost function Names(ps: seq<Piece>): set<string> {
    set p | p in ps :: p.name
  }

  lemma BaseKeysOfSnoc(lines: seq<string>, l: string)
    ensures BaseKeys(lines + [l]) == BaseKeys(lines) + (if IsHeader(l) then {Name(l)} else {})
  {
    var all := lines + [l];
    assert all[|lines|] == l;
    forall n | n in BaseKeys(lines) ensures n in BaseKeys(all) {
      var i :| 0 <= i < |lines| && IsHeader(lines[i]) && Name(lines[i]) == n;
      assert all[i] == lines[i];
    }
  }

  lemma BaseKeysOfCons(lines: seq<string>)
    requires lines != []
    ensures BaseKeys(lines) == (if IsHeader(lines[0]) then {Name(lines[0])} else {}) + BaseKeys(lines[1..])
  {
    forall n | n in BaseKeys(lines) ensures n in (if IsHeader(lines[0]) then {Name(lines[0])} else {}) + BaseKeys(lines[1..]) {
      var i :| 0 <= i < |lines| && IsHeader(lines[i]) && Name(lines[i]) == n;
      assert i > 0 ==> lines[1..][i - 1] == lines[i];
    }
    forall n | n in BaseKeys(lines[1..]) ensures n in BaseKeys(lines) {
      var i :| 0 <= i < |lines[1..]| && IsHeader(lines[1..][i]) && Name(lines[1..][i]) == n;
      assert lines[i + 1] == lines[1..][i];
    }
  }

  /** On a clean line the three loops read one name. */
  lemma CleanLine(lines: seq<string>, current: Option<string>)
    requires HeadersClean(lines) && lines != []
    ensures HeadersClean(lines[1..])
    ensures match NewName(lines[0], current)
            case Some(n) => IsHeader(lines[0]) && n == Name(lines[0]) && n != ""
            case None => IsHeader(lines[0]) ==> current == Some(Name(lines[0]))
  {
    assert HeadersClean([lines[0]] + lines[1..]) by { assert [lines[0]] + lines[1..] == lines; }
  }

  lemma {:induction false} CleanNamesAgree(lines: seq<string>, current: Option<string>, diff: seq<string>)
    requires HeadersClean(lines) && (current.Some? ==> current.value != "" && diff != [])
    ensures Names(PiecesFrom(lines, current, diff))
            == (if current.Some? then {current.value} else {}) + BaseKeys(lines)
    decreases |lines|
  {
    if lines != [] {
      CleanLine(lines, current);
      BaseKeysOfCons(lines);
      match NewName(lines[0], current) {
        case Some(n) =>
          CleanNamesAgree(lines[1..], Some(n), [lines[0]]);
          NamesOfConcat(Flush(current, diff), PiecesFrom(lines[1..], Some(n), [lines[0]]));
        case None =>
          CleanNamesAgree(lines[1..], current, diff + [lines[0]]);
      }
    }
  }

  lemma NamesOfConcat(a: seq<Piece>, b: seq<Piece>)
    ensures Names(a + b) == Names(a) + Names(b)
  {
  }

  /** The piece names are the keys GetBaseFiles makes if and only if the headers are clean. */
  lemma NamesAgreeExactly(lines: seq<string>)
    ensures Names(Pieces(lines)) == BaseKeys(lines) <==> HeadersClean(lines)
  {
    if HeadersClean(lines) {
      CleanNamesAgree(lines, None, []);
    } else {
      var i :| 0 <= i < |lines| && IsHeader(lines[i])
               && (Name(lines[i]) == "" || (IsIndex(lines[i]) && '\\' in RawName(lines[i])));
      if Name(lines[i]) == "" {
        PiecesAreNamed(lines, None, []);
        assert "" in BaseKeys(lines);
      } else {
        IndexIsListed(lines, None, [], i);
        assert RawName(lines[i]) in Names(Pieces(lines));
      }
    }
  }

  /** What the current piece and the rest of the lines come to. */
  function Outcome(lines: seq<string>, keep: string -> bool, current: Option<string>, diff: seq<string>): string {
    var open := current.Some? && keep(current.value);
    (if open then Concat(diff) else "") + Concat(Kept(lines, keep, !open))
  }

  lemma {:induction false} CleanFilterAgrees(lines: seq<string>, keep: string -> bool, current: Option<string>, diff: seq<string>)
    requires HeadersClean(lines) && (current.Some? ==> current.value != "" && diff != [])
    ensures Texts(PiecesFrom(lines, current, diff), keep) == Outcome(lines, keep, current, diff)
    decreases |lines|
  {
    FlushText(current, diff, keep);
    if lines != [] {
      var line := lines[0];
      CleanLine(lines, current);
      match NewName(line, current) {
        case Some(n) =>
          CleanFilterAgrees(lines[1..], keep, Some(n), [line]);
          TextsOfConcat(Flush(current, diff), PiecesFrom(lines[1..], Some(n), [line]), keep);
          OutcomeOpens(lines, keep, current, diff, n);
        case None =>
          CleanFilterAgrees(lines[1..], keep, current, diff + [line]);
          OutcomeGrows(lines, keep, current, diff);
      }
    }
  }

  lemma FlushText(current: Option<string>, diff: seq<string>, keep: string -> bool)
    requires current.Some? ==> current.value != "" && diff != []
    ensures Texts(Flush(current, diff), keep) == if current.Some? && keep(current.value) then Concat(diff) else ""
    ensures Outcome([], keep, current, diff) == Texts(Flush(current, diff), keep)
  {
    var now := Flush(current, diff);
    if now != [] {
      assert now[1..] == [];
    }
    assert Concat(diff) + "" == Concat(diff);
  }

  lemma OutcomeOpens(lines: seq<string>, keep: string -> bool, current: Option<string>, diff: seq<string>, n: string)
    requires lines != [] && IsHeader(lines[0]) && n == Name(lines[0])
    requires current.Some? ==> current.value != "" && diff != []
    ensures Outcome(lines, keep, current, diff)
            == Texts(Flush(current, diff), keep) + Outcome(lines[1..], keep, Some(n), [lines[0]])
  {
    FlushText(current, diff, keep);
    KeptHead(lines, keep, !(current.Some? && keep(current.value)));
    ConcatOne(lines[0]);
  }

  lemma OutcomeGrows(lines: seq<string>, keep: string -> bool, current: Option<string>, diff: seq<string>)
    requires lines != [] && (IsHeader(lines[0]) ==> current == Some(Name(lines[0])))
    ensures Outcome(lines, keep, current, diff) == Outcome(lines[1..], keep, current, diff + [lines[0]])
  {
    var open := current.Some? && keep(current.value);
    KeptHead(lines, keep, !open);
    ConcatOfConcat(diff, [lines[0]]);
    ConcatOne(lines[0]);
    Assoc(Concat(diff), lines[0], Concat(Kept(lines[1..], keep, !open)));
    Assoc("", "", Concat(Kept(lines[1..], keep, !open)));
  }

  lemma KeptHead(lines: seq<string>, keep: string -> bool, skip: bool)
    requires lines != []
    ensures var skip' := if IsHeader(lines[0]) then !keep(Name(lines[0])) else skip;
            Concat(Kept(lines, keep, skip))
            == (if skip' then "" else lines[0]) + Concat(Kept(lines[1..], keep, skip'))
  {
    var skip' := if IsHeader(lines[0]) then !keep(Name(lines[0])) else skip;
    var later := Kept(lines[1..], keep, skip');
    assert ([lines[0]] + later)[1..] == later && [] + later == later;
    assert "" + Concat(later) == Concat(later);
  }

  /** Filtering keeps the texts of the pieces that are in the include set, if there is
      one, and not in the exclude set. */
  ghost predicate FilterAgrees(data: string, patterns: Patterns) {
    Filtered(data, n => patterns.Passes(n))
    == Texts(Pieces(SplitLines(data)),
             n => (patterns.include_ == None || n in patterns.include_.value)
                  && (patterns.exclude == None || n !in patterns.exclude.value))
  }

  lemma {:induction false} TextsOnly(ps: seq<Piece>, k1: string -> bool, k2: string -> bool)
    requires forall n :: k1(n) == k2(n)
    ensures Texts(ps, k1) == Texts(ps, k2)
  {
    if ps != [] {
      TextsOnly(ps[1..], k1, k2);
    }
  }

  lemma FilterAgreesMeans(data: string, patterns: Patterns)
    ensures FilterAgrees(data, patterns) <==>
            Filtered(data, n => patterns.Passes(n)) == Texts(Pieces(SplitLines(data)), n => patterns.Passes(n))
  {
    TextsOnly(Pieces(SplitLines(data)), n => patterns.Passes(n),
              n => (patterns.include_ == None || n in patterns.include_.value)
                   && (patterns.exclude == None || n !in patterns.exclude.value));
  }

  /** Filtering a diff keeps exactly the pieces whose names pass, for all patterns,
      if and only if the headers are clean. */
  lemma FilterAgreesExactly(data: string)
    ensures (forall patterns :: FilterAgrees(data, patterns)) <==> HeadersClean(SplitLines(data))
  {
    var lines := SplitLines(data);
    if HeadersClean(lines) {
      forall patterns ensures FilterAgrees(data, patterns) {
        CleanFilterAgrees(lines, n => patterns.Passes(n), None, []);
        FilterAgreesMeans(data, patterns);
      }
    } else {
      var i :| 0 <= i < |lines| && IsHeader(lines[i])
               && (Name(lines[i]) == "" || (IsIndex(lines[i]) && '\\' in RawName(lines[i])));
      UncleanDisagrees(data, i);
    }
  }

  lemma {:induction false} TextsOfListed(ps: seq<Piece>, keep: string -> bool, name: string)
    requires Listed(ps, name) && keep(name)
    ensures Texts(ps, keep) != ""
  {
    var k :| 0 <= k < |ps| && ps[k].name == name && ps[k].text != "";
    if k > 0 {
      assert ps[1..][k - 1] == ps[k];
      TextsOfListed(ps[1..], keep, name);
    }
  }

  lemma {:induction false} TextsOfNone(ps: seq<Piece>, keep: string -> bool)
    requires forall p :: p in ps ==> !keep(p.name)
    ensures Texts(ps, keep) == ""
  {
    if ps != [] {
      TextsOfNone(ps[1..], keep);
    }
  }

  lemma {:induction false} KeptOfHeader(lines: seq<string>, keep: string -> bool, skip: bool, i: nat)
    requires i < |lines| && IsHeader(lines[i]) && keep(Name(lines[i]))
    ensures Concat(Kept(lines, keep, skip)) != ""
    decreases |lines|
  {
    var skip' := if IsHeader(lines[0]) then !keep(Name(lines[0])) else skip;
    var later := Kept(lines[1..], keep, skip');
    assert ([lines[0]] + later)[1..] == later && [] + later == later;
    if i > 0 {
      KeptOfHeader(lines[1..], keep, skip', i - 1);
    }
  }

  lemma {:induction false} KeptOfNone(lines: seq<string>, keep: string -> bool)
    requires forall i :: 0 <= i < |lines| && IsHeader(lines[i]) ==> !keep(Name(lines[i]))
    ensures Kept(lines, keep, true) == []
    decreases |lines|
  {
    if lines != [] {
      KeptOfNone(lines[1..], keep);
    }
  }

  /** The include list that tells filtering and splitting apart: the empty name, or
      the name as "Index:" spells it. */
  lemma UncleanDisagrees(data: string, i: nat)
    requires i < |SplitLines(data)| && IsHeader(SplitLines(data)[i])
    requires var line := SplitLines(data)[i];
             Name(line) == "" || (IsIndex(line) && '\\' in RawName(line))
    ensures exists patterns :: !FilterAgrees(data, patterns)
  {
    if Name(SplitLines(data)[i]) == "" {
      EmptyNameDisagrees(data, i);
    } else {
      BackslashDisagrees(data, i);
    }
  }

  function Only(name: string): Patterns {
    Patterns(Some({name}), None)
  }

  lemma EmptyNameDisagrees(data: string, i: nat)
    requires i < |SplitLines(data)| && IsHeader(SplitLines(data)[i]) && Name(SplitLines(data)[i]) == ""
    ensures !FilterAgrees(data, Only(""))
  {
    var lines := SplitLines(data);
    var keep := n => Only("").Passes(n);
    PiecesAreNamed(lines, None, []);
    TextsOfNone(Pieces(lines), keep);
    KeptOfHeader(lines, keep, true, i);
    FilterAgreesMeans(data, Only(""));
  }

  lemma BackslashDisagrees(data: string, i: nat)
    requires i < |SplitLines(data)| && IsIndex(SplitLines(data)[i])
    requires '\\' in RawName(SplitLines(data)[i]) && Name(SplitLines(data)[i]) != ""
    ensures !FilterAgrees(data, Only(RawName(SplitLines(data)[i])))
  {
    var lines, only := SplitLines(data), RawName(SplitLines(data)[i]);
    var keep := n => Only(only).Passes(n);
    IndexIsListed(lines, None, [], i);
    TextsOfListed(Pieces(lines), keep, only);
    KeptOfNone(lines, keep);
    FilterAgreesMeans(data, Only(only));
  }
}
