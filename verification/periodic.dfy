/** `_CallPeriodically` (threading-progress/progress.py:288-339,
    threading-progress/progress2.py:295-346) as a state machine.

    The thread body is
    `while not done: (with lock: try func(*args) except Exception: log); sleep`.
    The state records the stop flag, where the thread stands in its loop, the
    argument lists of the invocations that started, one diagnostic line per caught
    failure, and whether an exception outside the `Exception` hierarchy escaped the
    `try` and ended the thread. The owner and the thread interleave as a sequence of
    events; sleeping and the lock are not modelled beyond that ordering. */
module Periodic {
  import opened Py
  import opened NamedLists

  /** Where the background thread stands: not started, about to test `done`, past
      the test and about to run the body, or out of the loop. */
  datatype Phase = Idle | AtHead | Invoking | Exited

  datatype Loop<V> = Loop(done: bool, phase: Phase, calls: seq<seq<Option<V>>>, stderr: seq<Error>,
                          escaped: bool)

  /** A step of the owner or of the background thread. `Body` carries the argument
      list as it stands when the lock is taken and the outcome the function would
      have if called. */
  datatype Event<V, R> = OwnerKill | ThreadCheck | ThreadBody(args: NamedList<V>, outcome: Outcome<R>)

  /** The state right after `__init__`: flag clear, thread not started. */
  function Init<V>(): Loop<V> { Loop(false, Idle, [], [], false) }

  /** `Thread.start()` enters `__call__`: the thread reaches its loop test. */
  function Enter<V>(l: Loop<V>): (r: Loop<V>)
    ensures l.phase == Idle ==> r == l.(phase := AtHead)
    ensures l.phase != Idle ==> r == l
  {
    if l.phase == Idle then l.(phase := AtHead) else l
  }

  /** `kill()`: sets the stop flag, whatever the thread is doing. */
  function Kill<V>(l: Loop<V>): (r: Loop<V>)
    ensures r.done && r.phase == l.phase && r.calls == l.calls && r.stderr == l.stderr
    ensures r.escaped == l.escaped
  {
    l.(done := true)
  }

  /** The loop test `while not self.__done`, evaluated without the lock. */
  function Check<V>(l: Loop<V>): (r: Loop<V>)
    ensures r.done == l.done && r.calls == l.calls && r.stderr == l.stderr && r.escaped == l.escaped
    ensures r.phase == Exited <==> l.phase == Exited || (l.phase == AtHead && l.done)
    ensures l.phase == AtHead && !l.done ==> r.phase == Invoking
    ensures l.phase != AtHead ==> r.phase == l.phase
  {
    if l.phase != AtHead then l
    else if l.done then l.(phase := Exited)
    else l.(phase := Invoking)
  }

  /** The invocation runs and raises something `except exceptions.Exception` does
      not catch, so the exception leaves `__call__` and ends the thread. */
  predicate Escapes<V, R>(args: NamedList<V>, outcome: Outcome<R>) {
    Items(args).Success? && outcome.Raises? && !IsException(outcome.error)
  }

  /** One loop body: unpack the arguments and call the function under the lock.
      An `Exception` (from unpacking or from the call) is written to stderr as one
      line and the loop goes back to its test; any other exception ends the thread
      without a line and without touching the stop flag. */
  function Body<V, R>(l: Loop<V>, args: NamedList<V>, outcome: Outcome<R>): (r: Loop<V>)
    ensures l.phase != Invoking ==> r == l
    ensures l.phase == Invoking ==> r.done == l.done
    ensures l.phase == Invoking ==> r.phase == (if Escapes(args, outcome) then Exited else AtHead)
    ensures l.phase == Invoking ==> r.escaped == (l.escaped || Escapes(args, outcome))
    ensures l.phase == Invoking ==>
              r.calls == l.calls + (if Items(args).Success? then [Items(args).value] else [])
    ensures l.phase == Invoking ==>
              |r.stderr| == |l.stderr| +
                (if Items(args).Failure? || (outcome.Raises? && IsException(outcome.error)) then 1 else 0)
  {
    if l.phase != Invoking then l
    else match Items(args)
      case Failure(e) => l.(phase := AtHead, stderr := l.stderr + [e])
      case Success(vs) =>
        var called := l.calls + [vs];
        match outcome
        case Returns(_) => l.(phase := AtHead, calls := called)
        case Raises(e) =>
          if IsException(e) then l.(phase := AtHead, calls := called, stderr := l.stderr + [e])
          else l.(phase := Exited, calls := called, escaped := true)
  }

  function Step<V, R>(l: Loop<V>, e: Event<V, R>): Loop<V> {
    match e
    case OwnerKill => Kill(l)
    case ThreadCheck => Check(l)
    case ThreadBody(args, outcome) => Body(l, args, outcome)
  }

  function Run<V, R>(l: Loop<V>, es: seq<Event<V, R>>): Loop<V>
    decreases |es|
  {
    if |es| == 0 then l else Run(Step(l, es[0]), es[1..])
  }

  /** The stop flag latches: once set, no event clears it, and it is set after a
      run exactly when it was set before or the run contains a `kill()`. */
  lemma {:induction false} KillLatches<V, R>(l: Loop<V>, es: seq<Event<V, R>>)
    ensures Run(l, es).done <==> l.done || exists i :: 0 <= i < |es| && es[i].OwnerKill?
    decreases |es|
  {
    if |es| > 0 {
      KillLatches(Step(l, es[0]), es[1..]);
      if exists i :: 0 <= i < |es| - 1 && es[1..][i].OwnerKill? {
        var i :| 0 <= i < |es| - 1 && es[1..][i].OwnerKill?;
        assert es[i + 1].OwnerKill?;
      }
      if exists i :: 0 <= i < |es| && es[i].OwnerKill? {
        var i :| 0 <= i < |es| && es[i].OwnerKill?;
        if i > 0 { assert es[1..][i - 1].OwnerKill?; }
      }
    }
  }

  /** The thread is out of its loop only after the test saw the stop flag or after
      an exception escaped, and an escape always leaves it out. */
  predicate Settled<V>(l: Loop<V>) {
    (l.phase == Exited ==> l.done || l.escaped) && (l.escaped ==> l.phase == Exited)
  }

  /** The thread leaves the loop only through the test with the stop flag set, or
      through an escaping exception; once out, nothing more is invoked or logged. */
  lemma {:induction false} ExitOnlyWhenDone<V, R>(l: Loop<V>, es: seq<Event<V, R>>)
    requires Settled(l)
    ensures Settled(Run(l, es))
    ensures l.phase == Exited ==> Run(l, es).calls == l.calls && Run(l, es).stderr == l.stderr
    decreases |es|
  {
    if |es| > 0 {
      ExitOnlyWhenDone(Step(l, es[0]), es[1..]);
    }
  }

  /** A caught failure does not end the loop: the thread goes back to its test, one
      line is logged, and the stop flag is left as it was. */
  lemma FailureIsLoggedAndLoopContinues<V, R>(l: Loop<V>, args: NamedList<V>, e: Error)
    requires l.phase == Invoking && !l.done && IsException(e)
    ensures var r := Body<V, R>(l, args, Raises(e));
            r.phase == AtHead && !r.done && |r.stderr| == |l.stderr| + 1 &&
            Check(r).phase == Invoking
  {
  }

  /** An exception outside the `Exception` hierarchy ends the thread with the stop
      flag still clear and nothing logged; whatever happens afterwards, the function
      is not invoked again. */
  lemma EscapeEndsThread<V, R>(l: Loop<V>, args: NamedList<V>, e: Error, es: seq<Event<V, R>>)
    requires l.phase == Invoking && Settled(l) && !IsException(e) && Items(args).Success?
    ensures var r := Body<V, R>(l, args, Raises(e));
            r.phase == Exited && r.done == l.done && r.stderr == l.stderr &&
            r.calls == l.calls + [Items(args).value] &&
            Run(r, es).calls == r.calls && Run(r, es).stderr == r.stderr
  {
    ExitOnlyWhenDone(Body<V, R>(l, args, Raises(e)), es);
  }

  /** Stop latency: once `kill()` has taken effect, at most the invocation already
      past the test still starts; if the thread is at its test, none does. */
  lemma {:induction false} StopLatency<V, R>(l: Loop<V>, es: seq<Event<V, R>>)
    requires l.done
    ensures |Run(l, es).calls| <= |l.calls| + (if l.phase == Invoking then 1 else 0)
    decreases |es|
  {
    if |es| > 0 {
      var l' := Step(l, es[0]);
      StopLatency(l', es[1..]);
      if l.phase != Invoking {
        assert l'.phase != Invoking;
        assert |l'.calls| == |l.calls|;
      }
    }
  }

  /** A stop that lands while the thread is not inside an invocation is final: no
      event starts another invocation or logs anything, and the thread never gets
      past its test again. */
  lemma {:induction false} StoppedOutsideBodyRunsNothing<V, R>(l: Loop<V>, es: seq<Event<V, R>>)
    requires l.done && l.phase != Invoking
    ensures Run(l, es).calls == l.calls && Run(l, es).stderr == l.stderr
    ensures Run(l, es).done && Run(l, es).phase != Invoking
    decreases |es|
  {
    if |es| > 0 {
      var l' := Step(l, es[0]);
      assert l'.done && l'.phase != Invoking && l'.calls == l.calls && l'.stderr == l.stderr;
      StoppedOutsideBodyRunsNothing(l', es[1..]);
    }
  }
}
