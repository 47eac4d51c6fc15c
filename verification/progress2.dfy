/** `Progress` of threading-progress/progress2.py (the `__getattr__`/`__setattr__`
    variant): construction, argument access through the forwarding mixin, and the
    start/stop controls, with the background thread's steps as explicit transitions. */
module Progress2 {
  import opened Py
  import opened NamedLists
  import opened Validation
  import opened Forwarding
  import opened ThreadControl
  import Periodic

  /** The runner: its attribute routing (whose link holds the argument list) and
      its thread controls. The lock, the thread object and the interval are not state here. */
  datatype Runner<V> = Runner(fw: Forwarder<V>, ctl: Control<V>)

  /** `Progress(func, sleep, start_now)`. `reservedSelf` is `_fieldnames` of the new
      runner, `reservedList` that of the new NamedList, `classAttrs` the attributes
      the runner's class provides. */
  function Construct<V>(sig: Signature<V>, startNow: bool, reservedSelf: set<string>,
                        reservedList: set<string>, classAttrs: Attrs<V>): (r: Result<Runner<V>>)
    ensures r.Success? <==>
              InvalidFunction(sig, reservedSelf) == Valid &&
              NamedLists.Construct(sig.argNames, sig.defaults, true, reservedList).Success?
    ensures InvalidFunction(sig, reservedSelf) != Valid ==>
              r == Failure(InvalidFunction(sig, reservedSelf).error)
    ensures r.Success? ==>
              Consistent(r.value.ctl) && r.value.ctl.started == startNow && !r.value.ctl.loop.done &&
              r.value.fw == Forwarder(map[], classAttrs, Some(Link(sig.argNames,
                NamedLists.Construct(sig.argNames, sig.defaults, true, reservedList).value)))
  {
    var _ :- CheckFunction(sig, reservedSelf);
    var nl :- NamedLists.Construct(sig.argNames, sig.defaults, true, reservedList);
    var runner := Runner(Forwarder(map[], classAttrs, Some(Link(sig.argNames, nl))), Initial());
    if startNow then
      // a fresh gate always admits the start, so this call cannot fail
      Success(runner.(ctl := StartOnce(runner.ctl).value))
    else
      Success(runner)
  }

  /** `runner.name = value` from the owner thread. */
  function SetArg<V>(r: Runner<V>, name: string, value: Option<V>): Runner<V> {
    r.(fw := Forwarding.Set(r.fw, name, value))
  }

  /** `runner.name` from the owner thread. */
  function GetArg<V>(r: Runner<V>, name: string): Result<Option<V>> {
    Forwarding.Get(r.fw, name)
  }

  /** `_start_once()`. */
  function StartOnceRunner<V>(r: Runner<V>): Result<Runner<V>> {
    var c :- StartOnce(r.ctl);
    Success(r.(ctl := c))
  }

  /** `_done()`. */
  function Done<V>(r: Runner<V>): Runner<V> {
    r.(ctl := Stop(r.ctl))
  }

  /** The loop test of the background thread. */
  function ThreadTest<V>(r: Runner<V>): Runner<V> {
    r.(ctl := r.ctl.(loop := Periodic.Check(r.ctl.loop)))
  }

  /** One loop body of the background thread, reading the argument list the owner
      writes through. */
  function ThreadBody<V, R>(r: Runner<V>, outcome: Outcome<R>): Runner<V>
    requires r.fw.link.Some?
  {
    r.(ctl := r.ctl.(loop := Periodic.Body(r.ctl.loop, r.fw.link.value.target, outcome)))
  }

  /** For a function that passes validation, construction fails for a function
      without parameters (NamedList's constructor raises `UnboundLocalError`) and
      succeeds when its parameter names are also allowed by NamedList. */
  lemma ZeroArgumentFunctionFails<V>(sig: Signature<V>, startNow: bool, reservedSelf: set<string>,
                                     reservedList: set<string>, classAttrs: Attrs<V>)
    requires InvalidFunction(sig, reservedSelf) == Valid
    ensures |sig.argNames| == 0 ==>
              Construct(sig, startNow, reservedSelf, reservedList, classAttrs) == Failure(UnboundLocalError)
    ensures |sig.argNames| > 0 && !HasReservedName(sig.argNames, reservedList) ==>
              Construct(sig, startNow, reservedSelf, reservedList, classAttrs).Success?
  {
  }

  /** Every argument name of a linked runner is bound in its argument list. */
  predicate AllBound<V>(r: Runner<V>) {
    r.fw.link.Some? &&
    var nl := r.fw.link.value.target;
    forall k :: 0 <= k < nl.Len() ==> nl.order[k] in nl.attrs
  }

  /** When the owner writes argument `i` of a runner whose arguments are all bound,
      the invocation the thread is about to make receives the new value at position
      `i` and the old values everywhere else. */
  lemma {:induction false} InvocationSeesWrite<V, R>(r: Runner<V>, i: nat, value: Option<V>, outcome: Outcome<R>)
    requires AllBound(r) && i < r.fw.link.value.target.Len()
    requires Forwards(r.fw, r.fw.link.value.target.order[i])
    requires r.ctl.loop.phase == Periodic.Invoking
    ensures var nl := r.fw.link.value.target;
            var n := nl.order[i];
            var r1 := SetArg(r, n, value);
            r1.fw.link.Some? &&
            var args := r1.fw.link.value.target;
            Items(nl).Success? && Items(args).Success? &&
            |Items(args).value| == nl.Len() && Items(args).value[i] == value &&
            (forall k :: 0 <= k < nl.Len() && nl.order[k] != n ==> Items(args).value[k] == Items(nl).value[k]) &&
            ThreadBody(r1, outcome).ctl.loop.calls == r.ctl.loop.calls + [Items(args).value]
  {
    var nl := r.fw.link.value.target;
    var n := nl.order[i];
    var r1 := SetArg(r, n, value);
    var args := r1.fw.link.value.target;
    assert args == SetAttr(nl, n, value);
    forall k | 0 <= k < args.Len() ensures args.order[k] in args.attrs {
      assert nl.order[k] in nl.attrs;
    }
    assert Items(nl).Success?;
    assert Items(args).Success?;
    assert GetItem(args, i) == Success(value);
    forall k | 0 <= k < nl.Len() && nl.order[k] != n
      ensures Items(args).value[k] == Items(nl).value[k]
    {
      assert GetItem(args, k) == Success(Items(args).value[k]);
      assert GetItem(nl, k) == Success(Items(nl).value[k]);
    }
  }

  /** A function `f(a, b)` without defaults, run with `start_now`: once the owner has
      set both arguments, the thread's next test and invocation call `f(x, y)`. */
  lemma OwnerSetsAllArguments<V, R>(x: Option<V>, y: Option<V>, outcome: Outcome<R>)
    ensures var sig: Signature<V> := Signature(true, ["a", "b"], false, false, None);
            var r0 := Construct(sig, true, {}, {}, map[]);
            r0.Success? &&
            var r1 := SetArg(SetArg(r0.value, "a", x), "b", y);
            ThreadBody(ThreadTest(r1), outcome).ctl.loop.calls == [[x, y]]
  {
    var sig: Signature<V> := Signature(true, ["a", "b"], false, false, None);
    var names := ["a", "b"];
    assert !HasReservedName(names, {}) by {
      assert !NamedLists.IsReserved(names[0], {}) && !NamedLists.IsReserved(names[1], {});
    }
    assert !HasReservedName(names, {});
    var r0 := Construct(sig, true, {}, {}, map[]).value;
    var nl := r0.fw.link.value.target;
    assert nl == NamedList(names, map[]);
    var r1 := SetArg(SetArg(r0, "a", x), "b", y);
    var args := r1.fw.link.value.target;
    assert args == NamedList(names, map["a" := x, "b" := y]);
    assert args.order[0] in args.attrs && args.order[1] in args.attrs;
    var vs := Items(args).value;
    assert GetItem(args, 0) == Success(vs[0]) && GetItem(args, 1) == Success(vs[1]);
    assert vs == [x, y];
  }

  /** Whether the thread was started by `start_now` or not, `_start_once` leaves a
      constructed runner started, with its thread at the loop test and not stopped;
      after a `start_now` construction the call changes nothing, and a second call
      never does. */
  lemma StartOnceAfterConstruct<V>(sig: Signature<V>, startNow: bool, reservedSelf: set<string>,
                                   reservedList: set<string>, classAttrs: Attrs<V>)
    requires Construct(sig, startNow, reservedSelf, reservedList, classAttrs).Success?
    ensures var r := Construct(sig, startNow, reservedSelf, reservedList, classAttrs).value;
            var s := StartOnceRunner(r);
            s.Success? && s.value.ctl.started && !s.value.ctl.loop.done &&
            s.value.ctl.loop.phase == Periodic.AtHead && s.value.fw == r.fw &&
            (startNow ==> s.value == r) &&
            StartOnceRunner(s.value) == s
  {
  }

  /** `_done()` issued while the thread is not inside an invocation ends the
      calls: whatever the thread and the owner do afterwards, the function is not
      invoked again and the thread never gets past its loop test. */
  lemma StopEndsInvocations<V, R>(r: Runner<V>, es: seq<Periodic.Event<V, R>>)
    requires r.ctl.loop.phase != Periodic.Invoking
    ensures var l := Periodic.Run(Done(r).ctl.loop, es);
            l.calls == r.ctl.loop.calls && l.phase != Periodic.Invoking
  {
    Periodic.StoppedOutsideBodyRunsNothing(Done(r).ctl.loop, es);
  }
}
