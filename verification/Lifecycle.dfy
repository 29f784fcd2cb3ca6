/** The life of the child process: isalive, wait, kill, terminate and close, over a
kernel that may end the child, stop it, or fail a call at any point.
*/
module Lifecycle {
  import opened Options

  datatype Status = Exited(code: nat) | Signaled(sig: nat)

  /** What waitpid says: nothing to report (pid 0), the end of the child (which
      reaps it), a stop, an OSError, or the OSError for "no such child". */
  datatype Report = Silent | Ended(status: Status) | Stopped(sig: nat) | Failed | NoChild

  datatype Call = Waitpid(block: bool, report: Report) | Kill(sig: nat, ok: bool)

  predicate Reaps(c: Call) {
    c.Waitpid? && c.report.Ended?
  }

  predicate Reaped(log: seq<Call>) {
    exists i :: 0 <= i < |log| && Reaps(log[i])
  }

  /** The safety property of a run: nothing is asked of the kernel, no wait and no
      signal, once the child is reaped (its pid may be another process's by then). */
  predicate NothingAfterReap(log: seq<Call>) {
    forall i :: 0 <= i < |log| - 1 ==> !Reaps(log[i])
  }

  function Signals(log: seq<Call>): seq<nat> {
    if log == [] then []
    else
      var c := log[|log| - 1];
      Signals(log[..|log| - 1]) + (if c.Kill? then [c.sig] else [])
  }

  function One(b: bool): nat {
    if b then 1 else 0
  }

  /** How many calls failed ... */
  function Failures(log: seq<Call>): nat {
    if log == [] then 0
    else
      var c := log[|log| - 1];
      Failures(log[..|log| - 1]) + One(if c.Kill? then !c.ok else c.report == Failed)
  }

  /** ... reported a stop ... */
  function Stops(log: seq<Call>): nat {
    if log == [] then 0
    else
      var c := log[|log| - 1];
      Stops(log[..|log| - 1]) + One(c.Waitpid? && c.report.Stopped?)
  }

  /** ... or could block. */
  function Blocks(log: seq<Call>): nat {
    if log == [] then 0
    else
      var c := log[|log| - 1];
      Blocks(log[..|log| - 1]) + One(c.Waitpid? && c.block)
  }

  /** An exception is the kernel's doing: an OSError comes of a failed call, the
      library's own of a reported stop, and neither goes unnoticed. */
  predicate Explained<T>(r: Reply<T>, before: seq<Call>, after: seq<Call>) {
    && (r.OsError? <==> Failures(after) > Failures(before))
    && (r.PexpectError? <==> Stops(after) > Stops(before))
  }

  /** The log ends with the two answers that make isalive true. */
  predicate EndsAlive(log: seq<Call>) {
    |log| >= 2 && log[|log| - 2] == log[|log| - 1] == Waitpid(false, Silent)
  }

  predicate EndsFailed(log: seq<Call>) {
    log != [] && log[|log| - 1].Waitpid? && log[|log| - 1].report == Failed
  }

  lemma OfSnoc(log: seq<Call>, c: Call)
    ensures Signals(log + [c]) == Signals(log) + if c.Kill? then [c.sig] else []
    ensures Failures(log + [c]) == Failures(log) + One(if c.Kill? then !c.ok else c.report == Failed)
    ensures Stops(log + [c]) == Stops(log) + One(c.Waitpid? && c.report.Stopped?)
    ensures Blocks(log + [c]) == Blocks(log) + One(c.Waitpid? && c.block)
  {
    assert (log + [c])[..|log|] == log;
  }

  lemma WaitedOnce(log: seq<Call>, block: bool, report: Report)
    requires !Reaped(log)
    ensures var log' := log + [Waitpid(block, report)];
            && NothingAfterReap(log') && (Reaped(log') <==> report.Ended?)
            && log'[|log'| - 1] == Waitpid(block, report)
  {
    var log' := log + [Waitpid(block, report)];
    assert log'[|log|] == Waitpid(block, report);
    assert forall i :: 0 <= i < |log| ==> log'[i] == log[i];
  }

  class Kernel {
    var log: seq<Call>
    var foreign: nat  // descriptors of others that were closed

    constructor ()
      ensures log == [] && foreign == 0
    {
      log, foreign := [], 0;
    }

    /** The kernel is free to answer anything possible. */
    method WaitFor(block: bool) returns (r: Report)
      modifies this`log
      ensures log == old(log) + [Waitpid(block, r)]
      ensures r == NoChild <==> Reaped(old(log))
      ensures block ==> r != Silent
    {
      r := *;
      if Reaped(log) {
        r := NoChild;
      } else if r == NoChild || (block && r == Silent) {
        r := Failed;
      }
      log := log + [Waitpid(block, r)];
    }

    method Signal(sig: nat) returns (ok: bool)
      modifies this`log
      ensures log == old(log) + [Kill(sig, ok)]
    {
      ok := *;
      log := log + [Kill(sig, ok)];
    }

    /** os.close of a number that was closed before: it fails, unless the number has
        come to be someone else's descriptor. */
    method CloseStale() returns (ok: bool)
      modifies this`foreign
      ensures foreign == if ok then old(foreign) + 1 else old(foreign)
    {
      ok := *;
      if ok {
        foreign := foreign + 1;
      }
    }
  }

  const SIGHUP: nat := 1
  const SIGINT: nat := 2
  const SIGKILL: nat := 9
  const SIGCONT: nat := 18

  /** The signals terminate tries, in order. */
  function Ladder(force: bool): seq<nat> {
    [SIGHUP, SIGCONT, SIGINT] + if force then [SIGKILL] else []
  }

  /** The ladder, rung by rung, after the signals sent before. */
  lemma Rungs(sent: seq<nat>, force: bool)
    ensures var l := Ladder(force);
            && |l| == (if force then 4 else 3) && l[0] == SIGHUP && l[1] == SIGCONT && l[2] == SIGINT
            && (force ==> l[3] == SIGKILL) && sent + l[..0] == sent && sent + l[..|l|] == sent + l
  {
    assert Ladder(force)[..0] == [] && Ladder(force)[..|Ladder(force)|] == Ladder(force);
  }

  lemma NoRung(sent: seq<nat>, force: bool)
    ensures sent == sent + Ladder(force)[..0]
  {
  }

  lemma LadderIs(force: bool)
    ensures |Ladder(force)| == if force then 4 else 3
    ensures forall k :: 0 <= k <= |Ladder(force)| ==> Ladder(force)[..k] == [SIGHUP, SIGCONT, SIGINT, SIGKILL][..k]
  {
  }

  datatype Reply<+T> = Ok(value: T) | PexpectError | OsError

  class Process {
    const kernel: Kernel
    var terminated: bool
    var exitstatus: Option<nat>
    var signalstatus: Option<nat>
    var flagEof: bool
    var closed: bool
    var fdOpen: bool

    constructor (kernel: Kernel)
      requires kernel.log == []
      ensures this.kernel == kernel && Valid() && !terminated && !closed && fdOpen && !flagEof
    {
      this.kernel := kernel;
      terminated, exitstatus, signalstatus := false, None, None;
      flagEof, closed, fdOpen := false, false, true;
    }

    predicate Valid()
      reads this, kernel
    {
      && NothingAfterReap(kernel.log)
      && (terminated <==> Reaped(kernel.log))
      && (terminated ==> Tells(kernel.log[|kernel.log| - 1]))
      && (closed ==> terminated && !fdOpen)
    }

    /** Exactly one of the two statuses is set, and it is the one reported. */
    predicate Tells(c: Call)
      reads this
    {
      Reaps(c) && match c.report.status
                  case Exited(n) => exitstatus == Some(n) && signalstatus == None
                  case Signaled(n) => exitstatus == None && signalstatus == Some(n)
    }

    /** What no operation may do: undo the end of the child, or touch the kernel after it. */
    twostate predicate EndIsFinal()
      reads this, kernel
    {
      && old(kernel.log) <= kernel.log
      && Failures(old(kernel.log)) <= Failures(kernel.log) && Stops(old(kernel.log)) <= Stops(kernel.log)
      && (old(terminated) ==> terminated && kernel.log == old(kernel.log)
                              && exitstatus == old(exitstatus) && signalstatus == old(signalstatus))
    }

    /** No call made meanwhile may block, unless the child's output has ended. */
    twostate predicate BlocksOnlyAfterEof()
      reads this, kernel
    {
      !flagEof ==> Blocks(kernel.log) == Blocks(old(kernel.log))
    }

    method Record(status: Status)
      modifies this`terminated, this`exitstatus, this`signalstatus
      ensures terminated
      ensures match status
              case Exited(n) => exitstatus == Some(n) && signalstatus == None
              case Signaled(n) => exitstatus == None && signalstatus == Some(n)
    {
      match status
      case Exited(n) => exitstatus, signalstatus, terminated := Some(n), None, true;
      case Signaled(n) => exitstatus, signalstatus, terminated := None, Some(n), true;
    }

    method IsAlive() returns (r: Reply<bool>)
      requires Valid()
      modifies this`terminated, this`exitstatus, this`signalstatus, kernel`log
      ensures Valid() && EndIsFinal()
      ensures BlocksOnlyAfterEof()
      ensures r.Ok? ==> (r.value <==> !terminated)
      ensures !r.Ok? ==> !terminated
      ensures r == Ok(true) ==>
              !flagEof && |kernel.log| == |old(kernel.log)| + 2 && EndsAlive(kernel.log)
      ensures |kernel.log| <= |old(kernel.log)| + 2 && (r == OsError ==> EndsFailed(kernel.log))
      ensures Explained(r, old(kernel.log), kernel.log)
      ensures Signals(kernel.log) == Signals(old(kernel.log))
    {
      if terminated {
        return Ok(false);
      }
      var report := Ask();
      match report
      case Silent => return Ok(true);
      case Failed => return OsError;
      case Stopped(_) => return PexpectError;
      case NoChild => assert false;
      case Ended(status) =>
        Record(status);
        return Ok(false);
    }

    /** The two calls isalive makes: the second only if the first had nothing to say. */
    method Ask() returns (report: Report)
      requires Valid() && !terminated
      modifies kernel`log
      ensures old(kernel.log) < kernel.log && kernel.log[|kernel.log| - 1] == Waitpid(flagEof, report)
      ensures || (|kernel.log| == |old(kernel.log)| + 1 && report != Silent)
              || (|kernel.log| == |old(kernel.log)| + 2 && kernel.log[|old(kernel.log)|] == Waitpid(flagEof, Silent))
      ensures report == Silent ==> !flagEof
      ensures report != NoChild && NothingAfterReap(kernel.log) && (Reaped(kernel.log) <==> report.Ended?)
      ensures Failures(kernel.log) == Failures(old(kernel.log)) + One(report == Failed)
      ensures Stops(kernel.log) == Stops(old(kernel.log)) + One(report.Stopped?)
      ensures BlocksOnlyAfterEof()
      ensures Signals(kernel.log) == Signals(old(kernel.log))
    {
      ghost var log0 := kernel.log;
      report := kernel.WaitFor(flagEof);
      OfSnoc(log0, Waitpid(flagEof, report));
      WaitedOnce(log0, flagEof, report);
      if report == Silent {
        ghost var log1 := kernel.log;
        report := kernel.WaitFor(flagEof);
        OfSnoc(log1, Waitpid(flagEof, report));
        WaitedOnce(log1, flagEof, report);
      }
    }

    /** Blocks until the child ends. If the kernel reports a stop instead, the
        exit status is overwritten before the error is raised. */
    method Wait() returns (r: Reply<Option<nat>>)
      requires Valid()
      modifies this`terminated, this`exitstatus, this`signalstatus, kernel`log
      ensures Valid() && EndIsFinal()
      ensures !flagEof && Blocks(kernel.log) != Blocks(old(kernel.log)) ==>
              && Blocks(kernel.log) == Blocks(old(kernel.log)) + 1
              && kernel.log != [] && kernel.log[|kernel.log| - 1].Waitpid? && kernel.log[|kernel.log| - 1].block
      ensures r.Ok? <==>
              && |kernel.log| == |old(kernel.log)| + 3 && EndsAlive(kernel.log[..|kernel.log| - 1])
              && kernel.log[|kernel.log| - 1].Waitpid? && kernel.log[|kernel.log| - 1].block
              && kernel.log[|kernel.log| - 1].report.Ended?
      ensures r.Ok? ==>
              match kernel.log[|kernel.log| - 1].report.status
              case Exited(n) => r.value == Some(n)
              case Signaled(_) => r.value == None
      ensures r == OsError <==> Failures(kernel.log) > Failures(old(kernel.log))
      ensures (|kernel.log| == |old(kernel.log)| + 3 && kernel.log[|kernel.log| - 1].Waitpid?
               && kernel.log[|kernel.log| - 1].report.Stopped?)
              ==> exitstatus == Some(kernel.log[|kernel.log| - 1].report.sig)
      ensures r.Ok? ==> terminated && r.value == exitstatus
      ensures Signals(kernel.log) == Signals(old(kernel.log))
    {
      var alive := IsAlive();
      match alive
      case PexpectError =>
        return PexpectError;
      case OsError =>
        return OsError;
      case Ok(false) =>
        return PexpectError;
      case Ok(true) =>
        ghost var log0 := kernel.log;
        var report := kernel.WaitFor(true);
        OfSnoc(log0, Waitpid(true, report));
        WaitedOnce(log0, true, report);
        assert kernel.log[..|kernel.log| - 1] == log0;
        match report {
          case Failed => return OsError;
          case Stopped(sig) =>
            exitstatus := Some(sig);
            return PexpectError;
          case Ended(status) =>
            Record(status);
            return Ok(exitstatus);
          case _ => assert false;
        }
    }

    /** Sends the signal exactly to a child that was alive a moment ago. */
    method KillChild(sig: nat) returns (r: Reply<()>)
      requires Valid()
      modifies this`terminated, this`exitstatus, this`signalstatus, kernel`log
      ensures Valid() && EndIsFinal()
      ensures BlocksOnlyAfterEof()
      ensures Explained(r, old(kernel.log), kernel.log)
      ensures Signals(kernel.log) == Signals(old(kernel.log)) || Signals(kernel.log) == Signals(old(kernel.log)) + [sig]
      ensures Signals(kernel.log) != Signals(old(kernel.log)) <==>
              && |kernel.log| == |old(kernel.log)| + 3 && EndsAlive(kernel.log[..|kernel.log| - 1])
              && kernel.log[|kernel.log| - 1] == Kill(sig, r.Ok?)
      ensures r.Ok? && !terminated ==> Signals(kernel.log) == Signals(old(kernel.log)) + [sig]
      ensures !r.Ok? ==> !terminated
    {
      var alive := IsAlive();
      match alive
      case PexpectError => return PexpectError;
      case OsError => return OsError;
      case Ok(false) => return Ok(());
      case Ok(true) =>
        ghost var log0 := kernel.log;
        var ok := kernel.Signal(sig);
        OfSnoc(log0, Kill(sig, ok));
        assert kernel.log[..|kernel.log| - 1] == log0;
        return if ok then Ok(()) else OsError;
    }

    /** One rung: signal, give the child time, look again. */
    method Nudge(sig: nat) returns (r: Reply<bool>)
      requires Valid()
      modifies this`terminated, this`exitstatus, this`signalstatus, kernel`log
      ensures Valid() && EndIsFinal()
      ensures BlocksOnlyAfterEof()
      ensures (r.Ok? ==> (r.value <==> !terminated)) && (!r.Ok? ==> !terminated)
      ensures Explained(r, old(kernel.log), kernel.log)
      ensures Signals(kernel.log) == Signals(old(kernel.log)) || Signals(kernel.log) == Signals(old(kernel.log)) + [sig]
      ensures r == Ok(true) ==> EndsAlive(kernel.log)
      ensures r == Ok(true) ==> Signals(kernel.log) == Signals(old(kernel.log)) + [sig]
    {
      var killed := KillChild(sig);
      match killed
      case PexpectError => return PexpectError;
      case OsError => return OsError;
      case Ok(_) =>
        r := IsAlive();
    }

    /** From `sent` signals already out, a prefix of the ladder and no more. */
    ghost predicate Climbed(sent: seq<nat>, force: bool)
      reads kernel
    {
      exists k :: 0 <= k <= |Ladder(force)| && Signals(kernel.log) == sent + Ladder(force)[..k]
    }

    /** The guarded part of terminate. */
    method Climb(force: bool) returns (r: Reply<bool>)
      requires Valid()
      modifies this`terminated, this`exitstatus, this`signalstatus, kernel`log
      ensures Valid() && EndIsFinal()
      ensures BlocksOnlyAfterEof()
      ensures (r.Ok? ==> (r.value <==> terminated)) && (!r.Ok? ==> !terminated)
      ensures Climbed(Signals(old(kernel.log)), force)
      ensures r == Ok(false) ==> Signals(kernel.log) == Signals(old(kernel.log)) + Ladder(force) && EndsAlive(kernel.log)
      ensures Explained(r, old(kernel.log), kernel.log)
    {
      ghost var sent := Signals(kernel.log);
      Rungs(sent, force);
      r := Rung(SIGHUP, sent, force, 0);
      if r != Ok(true) {
        return if r.Ok? then Ok(true) else r;
      }
      r := Rung(SIGCONT, sent, force, 1);
      if r != Ok(true) {
        return if r.Ok? then Ok(true) else r;
      }
      r := Rung(SIGINT, sent, force, 2);
      if r != Ok(true) {
        return if r.Ok? then Ok(true) else r;
      }
      if force {
        r := Rung(SIGKILL, sent, force, 3);
        return if r.Ok? then Ok(!r.value) else r;
      }
      return Ok(false);
    }

    /** From k rungs up, one more. */
    method Rung(sig: nat, ghost sent: seq<nat>, ghost force: bool, ghost k: nat) returns (r: Reply<bool>)
      requires Valid() && k < |Ladder(force)| && Ladder(force)[k] == sig && Signals(kernel.log) == sent + Ladder(force)[..k]
      modifies this`terminated, this`exitstatus, this`signalstatus, kernel`log
      ensures Valid() && EndIsFinal() && BlocksOnlyAfterEof()
      ensures (r.Ok? ==> (r.value <==> !terminated)) && (!r.Ok? ==> !terminated)
      ensures Explained(r, old(kernel.log), kernel.log) && Climbed(sent, force)
      ensures r == Ok(true) ==> EndsAlive(kernel.log) && Signals(kernel.log) == sent + Ladder(force)[..k + 1]
    {
      assert sent + Ladder(force)[..k + 1] == (sent + Ladder(force)[..k]) + [sig];
      r := Nudge(sig);
    }

    /** True only when the child is reaped; False only when it is not, after every
        signal of the ladder or a failed call, and a last look. A failed call on the
        ladder is forgiven; an OSError that escapes is of the first or the last look. */
    method Terminate(force: bool) returns (r: Reply<bool>)
      requires Valid()
      modifies this`terminated, this`exitstatus, this`signalstatus, kernel`log
      ensures Valid() && EndIsFinal()
      ensures BlocksOnlyAfterEof()
      ensures (r.Ok? ==> (r.value <==> terminated)) && (!r.Ok? ==> !terminated)
      ensures Climbed(Signals(old(kernel.log)), force)
      ensures r == PexpectError <==> Stops(kernel.log) > Stops(old(kernel.log))
      ensures exists k :: 0 <= k <= (if force then 4 else 3) &&
                Signals(kernel.log) == Signals(old(kernel.log)) + [SIGHUP, SIGCONT, SIGINT, SIGKILL][..k]
      ensures r == OsError ==>
              && EndsFailed(kernel.log) && Failures(kernel.log) > Failures(old(kernel.log))
              && (|kernel.log| <= |old(kernel.log)| + 2 || Failures(kernel.log) >= Failures(old(kernel.log)) + 2)
      ensures r == Ok(false) ==> EndsAlive(kernel.log)
      ensures r == Ok(false) ==> Signals(kernel.log) == Signals(old(kernel.log)) + Ladder(force)
                                 || Failures(kernel.log) > Failures(old(kernel.log))
    {
      LadderIs(force);
      NoRung(Signals(kernel.log), force);
      var alive := IsAlive();
      match alive
      case PexpectError => return PexpectError;
      case OsError => return OsError;
      case Ok(false) => return Ok(true);
      case Ok(true) =>
        r := Climb(force);
        if r == OsError {
          var again := IsAlive();
          return match again case Ok(a) => Ok(!a) case PexpectError => PexpectError case OsError => OsError;
        }
    }

    /** Closing again is free once it succeeded. If it failed, the descriptor is already
        gone: a later close fails on it, or closes one of someone else's that has got its
        number and then goes on like the first. */
    method Close(force: bool) returns (r: Reply<()>)
      requires Valid()
      modifies this, kernel
      ensures Valid() && EndIsFinal() && flagEof == old(flagEof)
      ensures BlocksOnlyAfterEof()
      ensures r.Ok? <==> closed
      ensures !fdOpen
      ensures old(closed) ==> closed && kernel.log == old(kernel.log)
      ensures old(closed || fdOpen) ==> kernel.foreign == old(kernel.foreign)
      ensures !old(closed) && !old(fdOpen) ==>
              || kernel.foreign == old(kernel.foreign) + 1
              || (kernel.foreign == old(kernel.foreign) && r == OsError && !closed && kernel.log == old(kernel.log))
      ensures Climbed(Signals(old(kernel.log)), force)
      ensures r == OsError && (old(fdOpen) || kernel.foreign != old(kernel.foreign)) ==>
              Failures(kernel.log) > Failures(old(kernel.log))
      ensures old(fdOpen) || kernel.foreign != old(kernel.foreign) ==> (r.Ok? <==> terminated)
      ensures r == OsError ==> EndsFailed(kernel.log) || kernel.log == old(kernel.log)
      ensures Stops(kernel.log) > Stops(old(kernel.log)) ==> r == PexpectError
      ensures r == PexpectError ==> Stops(kernel.log) > Stops(old(kernel.log)) || EndsAlive(kernel.log)
      ensures r == PexpectError ==> Stops(kernel.log) > Stops(old(kernel.log))
                                    || Signals(kernel.log) == Signals(old(kernel.log)) + Ladder(force)
                                    || Failures(kernel.log) > Failures(old(kernel.log))
    {
      NoRung(Signals(kernel.log), force);
      if closed {
        return Ok(());
      }
      if !fdOpen {
        var ok := kernel.CloseStale();
        if !ok {
          return OsError;
        }
      }
      fdOpen := false;
      r := CloseChild(force);
    }

    /** What close does once os.close went through. */
    method CloseChild(force: bool) returns (r: Reply<()>)
      requires Valid() && !closed && !fdOpen
      modifies this`terminated, this`exitstatus, this`signalstatus, this`closed, kernel`log
      ensures Valid() && EndIsFinal() && BlocksOnlyAfterEof()
      ensures r.Ok? <==> closed
      ensures Climbed(Signals(old(kernel.log)), force)
      ensures r == OsError ==> Failures(kernel.log) > Failures(old(kernel.log))
      ensures (r.Ok? <==> terminated) && (r == OsError ==> EndsFailed(kernel.log))
      ensures Stops(kernel.log) > Stops(old(kernel.log)) ==> r == PexpectError
      ensures r == PexpectError ==> Stops(kernel.log) > Stops(old(kernel.log)) || EndsAlive(kernel.log)
      ensures r == PexpectError ==> Stops(kernel.log) > Stops(old(kernel.log))
                                    || Signals(kernel.log) == Signals(old(kernel.log)) + Ladder(force)
                                    || Failures(kernel.log) > Failures(old(kernel.log))
    {
      NoRung(Signals(kernel.log), force);
      var alive := IsAlive();
      match alive
      case PexpectError => return PexpectError;
      case OsError => return OsError;
      case Ok(false) =>
        closed := true;
        return Ok(());
      case Ok(true) =>
        var done := Terminate(force);
        match done {
          case Ok(true) =>
            closed := true;
            return Ok(());
          case Ok(false) => return PexpectError;
          case PexpectError => return PexpectError;
          case OsError => return OsError;
        }
    }
  }

  datatype Op = AskAlive | AskWait | AskKill(sig: nat) | AskTerminate(force: bool) | AskClose(force: bool) | MeetEof

  /** Any program over the child, against any kernel: nothing is asked of the
      kernel after the reap, and the end, once seen, stays as it was seen. */
  method Drive(p: Process, ops: seq<Op>)
    requires p.Valid()
    modifies p, p.kernel
    ensures p.Valid() && p.EndIsFinal() && NothingAfterReap(p.kernel.log)
    ensures p.terminated ==> (p.exitstatus.Some? <==> p.signalstatus.None?)
    ensures old(p.closed) ==> p.closed
  {
    for i := 0 to |ops|
      invariant p.Valid() && p.EndIsFinal()
      invariant old(p.closed) ==> p.closed
    {
      match ops[i]
      case AskAlive => var _ := p.IsAlive();
      case AskWait => var _ := p.Wait();
      case AskKill(sig) => var _ := p.KillChild(sig);
      case AskTerminate(force) => var _ := p.Terminate(force);
      case AskClose(force) => var _ := p.Close(force);
      case MeetEof => p.flagEof := true;
    }
  }
}
