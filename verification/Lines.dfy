/** Text as lines that end in "\r\n", the way the file-like reads see it. */
module Lines {
  import opened Options
  import opened Searching
  import opened Strings

  const CRLF: Pattern := Literal("\r\n")

  /** A complete line: its only "\r\n" is its last two bytes. */
  predicate IsLine(l: string) {
    |l| >= 2 && forall i :: 0 <= i < |l| ==> (CRLF.MatchesAt(l, i) <==> i == |l| - 2)
  }

  /** What may follow the last complete line. */
  predicate IsTail(l: string) {
    l != "" && forall i :: 0 <= i < |l| ==> !CRLF.MatchesAt(l, i)
  }

  predicate WellFormed(ls: seq<string>) {
    forall i :: 0 <= i < |ls| ==> IsLine(ls[i]) || (i == |ls| - 1 && IsTail(ls[i]))
  }

  function FirstLine(t: string): (l: string)
    ensures l <= t && (t != "" ==> l != "")
  {
    FirstIsFirst([Entry(0, CRLF)], t, 0);
    match First([Entry(0, CRLF)], t, 0)
    case Some(h) => t[..h.start + 2]
    case None => t
  }

  function LinesOf(t: string): seq<string> {
    if t == "" then [] else [FirstLine(t)] + LinesOf(t[|FirstLine(t)|..])
  }

  /** What is left of a text without its first k lines. */
  predicate IsLaterLines(t: string, k: nat, rest: string) {
    k <= |LinesOf(t)| && rest == Concat(LinesOf(t)[k..])
  }

  lemma LaterLines(t: string, ls: seq<string>, rest: string)
    requires ls + LinesOf(rest) == LinesOf(t)
    ensures IsLaterLines(t, |ls|, rest)
  {
    LinesRebuild(rest);
    assert LinesOf(t)[|ls|..] == LinesOf(rest);
  }

  lemma FirstLineIsLine(t: string)
    requires t != ""
    ensures IsLine(FirstLine(t)) || (FirstLine(t) == t && IsTail(t))
  {
    var entries, l := [Entry(0, CRLF)], FirstLine(t);
    FirstIsFirst(entries, t, 0);
    assert entries[0].pattern == CRLF;
    match First(entries, t, 0) {
      case None =>
      case Some(h) =>
        forall i | 0 <= i < |l| ensures CRLF.MatchesAt(l, i) <==> i == |l| - 2 {
          if i + 2 <= |l| {
            assert l[i..i + 2] == t[i..i + 2];
            assert CRLF.MatchesAt(l, i) == CRLF.MatchesAt(t, i);
          }
        }
    }
  }

  lemma Cons(l: string, ls: seq<string>)
    requires (IsLine(l) || (IsTail(l) && ls == [])) && WellFormed(ls)
    ensures WellFormed([l] + ls) && Concat([l] + ls) == l + Concat(ls)
  {
    assert ([l] + ls)[1..] == ls;
  }

  /** The lines of a text concatenate to it, and each but possibly the last ends
      in its only "\r\n". */
  lemma {:induction false} LinesRebuild(t: string)
    ensures Concat(LinesOf(t)) == t && WellFormed(LinesOf(t))
    decreases |t|
  {
    if t != "" {
      var l, rest := FirstLine(t), t[|FirstLine(t)|..];
      FirstLineIsLine(t);
      LinesRebuild(rest);
      Cons(l, LinesOf(rest));
      assert l + rest == t;
    }
  }

  /** There is no other way to cut a text like that. */
  lemma {:induction false} LinesAreUnique(ls: seq<string>)
    requires WellFormed(ls)
    ensures LinesOf(Concat(ls)) == ls
  {
    if ls != [] {
      var t, l := Concat(ls), ls[0];
      assert t[..|l|] == l && t[|l|..] == Concat(ls[1..]);
      FirstOfConcat(l, Concat(ls[1..]));
      assert WellFormed(ls[1..]);
      LinesAreUnique(ls[1..]);
    }
  }

  lemma FirstOfConcat(l: string, rest: string)
    requires IsLine(l) || (IsTail(l) && rest == "")
    ensures l + rest != "" && FirstLine(l + rest) == l
  {
    var entries, t := [Entry(0, CRLF)], l + rest;
    forall i | 0 <= i && i + 2 <= |l| ensures CRLF.MatchesAt(t, i) == CRLF.MatchesAt(l, i) {
      assert t[i..i + 2] == l[i..i + 2];
    }
    if IsLine(l) {
      assert CRLF.MatchesAt(l, |l| - 2);
      forall i, k | 0 <= i < |t| && 0 <= k < |entries| && entries[k].pattern.MatchesAt(t, i) ensures |l| - 2 <= i {
      }
      FirstIsUnique(entries, t, 0, Hit(0, |l| - 2));
    } else {
      assert t == l;
      FirstIsNone(entries, t, 0);
    }
  }
}
