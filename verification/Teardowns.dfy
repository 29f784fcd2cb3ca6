/** The class-level setup and its stack of teardowns, any of which may raise. */
module Teardowns {
  import opened Options

  /** `except Exception` catches all but the fatal ones (KeyboardInterrupt, SystemExit). */
  datatype Raised = Error(id: nat) | Fatal(id: nat)

  /** A registered teardown and what calling it raises. */
  datatype Teardown = Teardown(name: string, raises: Option<Raised>)

  function Reversed(s: seq<Teardown>): seq<Teardown> {
    if s == [] then [] else [s[|s| - 1]] + Reversed(s[..|s| - 1])
  }

  lemma {:induction false} ReversedAt(s: seq<Teardown>)
    ensures |Reversed(s)| == |s| && forall i :: 0 <= i < |s| ==> Reversed(s)[i] == s[|s| - 1 - i]
  {
    if s != [] {
      ReversedAt(s[..|s| - 1]);
    }
  }

  predicate IsFatal(t: Teardown) {
    t.raises.Some? && t.raises.value.Fatal?
  }

  /** How many teardowns run: up to and including the first that cannot be caught. */
  function RunCount(order: seq<Teardown>): (n: nat)
    ensures n <= |order|
    ensures forall i :: 0 <= i < n - 1 ==> !IsFatal(order[i])
    ensures n < |order| ==> n > 0 && IsFatal(order[n - 1])
  {
    if order == [] then 0 else if IsFatal(order[0]) then 1 else 1 + RunCount(order[1..])
  }

  /** The first exception of a sequence of calls. */
  function FirstRaised(ran: seq<Teardown>): Option<Raised> {
    if ran == [] then None else if ran[0].raises.Some? then ran[0].raises else FirstRaised(ran[1..])
  }

  lemma {:induction false} FirstRaisedIsFirst(ran: seq<Teardown>)
    ensures match FirstRaised(ran)
      case None => forall i :: 0 <= i < |ran| ==> ran[i].raises == None
      case Some(e) => exists i :: 0 <= i < |ran| && ran[i].raises == Some(e) && forall j :: 0 <= j < i ==> ran[j].raises == None
  {
    if ran != [] && ran[0].raises.None? {
      FirstRaisedIsFirst(ran[1..]);
      if FirstRaised(ran[1..]).Some? {
        var i :| 0 <= i < |ran[1..]| && ran[1..][i].raises == FirstRaised(ran)
                 && forall j :: 0 <= j < i ==> ran[1..][j].raises == None;
        assert ran[i + 1].raises == FirstRaised(ran);
      }
    }
  }

  /** The teardowns that a stack's unwinding calls, in order. */
  function Calls(stack: seq<Teardown>): seq<Teardown> {
    Reversed(stack)[..RunCount(Reversed(stack))]
  }

  /** What escapes: the one that could not be caught; else nothing if an exception
      is already on its way; else the first. */
  function Escapes(ran: seq<Teardown>, current: Option<Raised>): Option<Raised> {
    if ran != [] && IsFatal(ran[|ran| - 1]) then ran[|ran| - 1].raises
    else if current.Some? then None
    else FirstRaised(ran)
  }

  lemma FirstRaisedOfSnoc(ran: seq<Teardown>, t: Teardown)
    ensures FirstRaised(ran + [t]) == if FirstRaised(ran).Some? then FirstRaised(ran) else t.raises
    decreases |ran|
  {
    if ran == [] {
      assert ran + [t] == [t];
      assert FirstRaised([t]) == if t.raises.Some? then t.raises else FirstRaised([]);
    } else {
      assert (ran + [t])[1..] == ran[1..] + [t];
      FirstRaisedOfSnoc(ran[1..], t);
    }
  }

  lemma {:induction false} RunCountIsUnique(order: seq<Teardown>, n: nat)
    requires n <= |order| && forall i :: 0 <= i < n - 1 ==> !IsFatal(order[i])
    requires n < |order| ==> n > 0 && IsFatal(order[n - 1])
    requires n > 0 || order == []
    ensures RunCount(order) == n
  {
    var m := RunCount(order);
  }

  class TestClass {
    var teardowns: seq<Teardown>
    var ran: seq<Teardown>  // every teardown call so far

    constructor ()
      ensures teardowns == [] && ran == []
    {
      teardowns, ran := [], [];
    }

    /** With `current` the exception being handled by the caller, if any. */
    method TearDownClass(current: Option<Raised>) returns (escaped: Option<Raised>)
      modifies this
      ensures var calls := Calls(old(teardowns));
              && ran == old(ran) + calls
              && |calls| <= |old(teardowns)| && teardowns == old(teardowns)[..|old(teardowns)| - |calls|]
              && escaped == Escapes(calls, current)
    {
      ghost var stack, ran0 := teardowns, ran;
      ReversedAt(stack);
      var etype := current;
      ghost var calls := [];
      while teardowns != []
        invariant Progress(stack, teardowns, calls)
        invariant forall i :: 0 <= i < |calls| ==> !IsFatal(calls[i])
        invariant ran == ran0 + calls
        invariant etype == if current.Some? then current else FirstRaised(calls)
        decreases |teardowns|
      {
        var t := teardowns[|teardowns| - 1];
        ProgressStep(stack, teardowns, calls);
        FirstRaisedOfSnoc(calls, t);
        teardowns := teardowns[..|teardowns| - 1];
        calls := calls + [t];
        ran := ran + [t];
        if t.raises.Some? {
          if t.raises.value.Fatal? {
            CallsAre(stack, teardowns, calls);
            return t.raises;
          }
          if etype == None {
            etype := t.raises;
          }
        }
      }
      CallsAre(stack, teardowns, calls);
      return if current == None then etype else None;
    }

    /** Part of the stack is called, the rest is still there. */
    static ghost predicate Progress(stack: seq<Teardown>, left: seq<Teardown>, calls: seq<Teardown>) {
      && |left| + |calls| == |stack|
      && stack[..|left|] == left
      && calls <= Reversed(stack)
    }

    /** The unwinding is over at the bottom of the stack or at an exception that can
        not be caught. */
    static lemma CallsAre(stack: seq<Teardown>, left: seq<Teardown>, calls: seq<Teardown>)
      requires |Reversed(stack)| == |stack| && Progress(stack, left, calls)
      requires forall i :: 0 <= i < |calls| - 1 ==> !IsFatal(calls[i])
      requires left == [] || (calls != [] && IsFatal(calls[|calls| - 1]))
      ensures Calls(stack) == calls
    {
      var order := Reversed(stack);
      assert forall i :: 0 <= i < |calls| ==> order[i] == calls[i];
      RunCountIsUnique(order, |calls|);
      assert order[..|calls|] == calls;
    }

    static lemma ProgressStep(stack: seq<Teardown>, left: seq<Teardown>, calls: seq<Teardown>)
      requires |Reversed(stack)| == |stack| && Progress(stack, left, calls) && left != []
      ensures Progress(stack, left[..|left| - 1], calls + [left[|left| - 1]])
    {
      ReversedAt(stack);
      assert Reversed(stack)[|calls|] == left[|left| - 1];
    }

    /** The steps of setup raise what they are given; `clear` and `cleanup` are what
        the two registered teardowns raise. */
    method SetUpClass(skipChecks: Option<Raised>, credentials: Option<Raised>, clients: Option<Raised>,
                      resources: Option<Raised>, clear: Option<Raised>, cleanup: Option<Raised>)
      returns (escaped: Option<Raised>)
      modifies this
      ensures skipChecks.Some? ==> escaped == skipChecks && teardowns == [] && ran == old(ran)
      ensures skipChecks.None? ==>
                var creds, res := Teardown("credentials", clear), Teardown("resources", cleanup);
                var reached := if credentials.Some? || clients.Some? then [creds] else [creds, res];
                var failure := if credentials.Some? then credentials else if clients.Some? then clients else resources;
                if failure.None? || failure.value.Fatal? then
                  escaped == failure && teardowns == reached && ran == old(ran)
                else
                  var calls := Calls(reached);
                  && ran == old(ran) + calls
                  && escaped == if Escapes(calls, failure).Some? then Escapes(calls, failure) else failure
    {
      teardowns := [];
      if skipChecks.Some? {
        return skipChecks;
      }
      var creds, res := Teardown("credentials", clear), Teardown("resources", cleanup);
      teardowns := teardowns + [creds];
      var failure := credentials;
      if failure.None? {
        failure := clients;
        if failure.None? {
          teardowns := teardowns + [res];
          failure := resources;
        }
      }
      assert teardowns == if credentials.Some? || clients.Some? then [creds] else [creds, res];
      escaped := Unwind(failure);
    }

    /** The exception handler of setUpClass. */
    method Unwind(failure: Option<Raised>) returns (escaped: Option<Raised>)
      modifies this
      ensures if failure.None? || failure.value.Fatal? then
                escaped == failure && teardowns == old(teardowns) && ran == old(ran)
              else
                var calls := Calls(old(teardowns));
                && ran == old(ran) + calls
                && escaped == if Escapes(calls, failure).Some? then Escapes(calls, failure) else failure
    {
      if failure.Some? && !failure.value.Fatal? {
        escaped := TearDownClass(failure);
        if escaped.Some? {
          return escaped;
        }
      }
      return failure;
    }
  }

  /** For any stack: the calls are the reverse of registration with none repeated;
      all of it runs exactly when nothing uncatchable comes before the last call. An
      uncatchable exception escapes; without one, what escapes is as documented: nothing
      while setup's own is on its way, else the first. */
  lemma TeardownDiscipline(stack: seq<Teardown>, current: Option<Raised>)
    ensures var calls := Calls(stack);
            && |calls| <= |stack| && (forall i :: 0 <= i < |calls| ==> calls[i] == stack[|stack| - 1 - i])
            && (|calls| == |stack| <==> forall i :: 0 < i < |stack| ==> !IsFatal(stack[i]))
            && ((forall i :: 0 <= i < |stack| ==> !IsFatal(stack[i])) ==>
                  Escapes(calls, current) == if current.Some? then None else FirstRaised(Reversed(stack)))
            && forall i :: LastFatal(stack, i) ==> Escapes(calls, current) == stack[i].raises
  {
    CallsAreReversed(stack);
    ReversedAt(stack);
    assert Reversed(stack)[..|stack|] == Reversed(stack);
    forall i | LastFatal(stack, i) ensures Escapes(Calls(stack), current) == stack[i].raises {
      FatalEscapes(stack, current, i);
    }
  }

  /** Of the fatal ones, the last registered. */
  predicate LastFatal(stack: seq<Teardown>, i: int) {
    0 <= i < |stack| && IsFatal(stack[i]) && forall j :: i < j < |stack| ==> !IsFatal(stack[j])
  }

  lemma FatalEscapes(stack: seq<Teardown>, current: Option<Raised>, i: nat)
    requires LastFatal(stack, i)
    ensures Escapes(Calls(stack), current) == stack[i].raises
  {
    ReversedAt(stack);
    RunCountIsUnique(Reversed(stack), |stack| - i);
    assert Calls(stack)[|stack| - i - 1] == stack[i];
  }

  lemma CallsAreReversed(stack: seq<Teardown>)
    ensures var calls := Calls(stack);
            && |calls| <= |stack| && (forall i :: 0 <= i < |calls| ==> calls[i] == stack[|stack| - 1 - i])
            && (|calls| == |stack| <==> forall i :: 0 < i < |stack| ==> !IsFatal(stack[i]))
  {
    ReversedAt(stack);
    var order := Reversed(stack);
    var n := RunCount(order);
    assert forall i :: 0 <= i < |stack| ==> order[i] == stack[|stack| - 1 - i];
    assert forall i :: 0 <= i < |stack| ==> stack[i] == order[|stack| - 1 - i];
    assert order[..|order|] == order;
    if n < |stack| {
      assert 0 < n && order[n - 1] == stack[|stack| - n];
    }
  }
}
