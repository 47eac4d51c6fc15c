/** `Progress` of threading-progress/progress.py (the descriptor variant):
    `__new__` builds a NamedList and a per-instance class whose data descriptors
    forward the function's argument names to it. */
module Progress {
  import opened Py
  import opened NamedLists
  import opened Validation
  import opened AttrRefs
  import opened ThreadControl

  /** The heap slot of the runner's NamedList. */
  const ArgsId: ObjId := 0

  /** The runner: the synthesised class's descriptors, the objects they refer to,
      and the thread controls. */
  datatype Runner<V> = Runner(refs: map<string, AttributeReference>, heap: Heap<V>, ctl: Control<V>)

  /** Every descriptor refers to the argument list, which is live, and forwards
      the name it is stored under. */
  predicate WellFormed<V>(r: Runner<V>) {
    ArgsId in r.heap && forall n :: n in r.refs ==> r.refs[n].ref == ArgsId && r.refs[n].name == n
  }

  /** `Progress(func, sleep, start_now)` through `__new__`. `reservedCls` is
      `_fieldnames(cls)`, `reservedList` that of the new NamedList. With
      `start_now` the start is reached only after validation and the argument list
      succeed, and then fails: `self.__once` is compiled as `self._Progress__once`,
      while the gate was stored as `_once`, so the lookup raises `AttributeError`. */
  function New<V>(sig: Signature<V>, startNow: bool, reservedCls: set<string>,
                  reservedList: set<string>): (r: Result<Runner<V>>)
    ensures startNow ==> r.Failure?
    ensures r.Success? <==>
              !startNow && InvalidFunction(sig, reservedCls) == Valid &&
              NamedLists.Construct(sig.argNames, sig.defaults, true, reservedList).Success?
    ensures InvalidFunction(sig, reservedCls) != Valid ==> r == Failure(InvalidFunction(sig, reservedCls).error)
    ensures startNow && InvalidFunction(sig, reservedCls) == Valid &&
            NamedLists.Construct(sig.argNames, sig.defaults, true, reservedList).Success? ==>
              r == Failure(AttributeError)
    ensures r.Success? ==>
              WellFormed(r.value) && r.value.refs.Keys == (set n | n in sig.argNames) &&
              r.value.heap == map[ArgsId := NamedLists.Construct(sig.argNames, sig.defaults, true, reservedList).value] &&
              r.value.ctl == Initial()
  {
    var _ :- CheckFunction(sig, reservedCls);
    var nl :- NamedLists.Construct(sig.argNames, sig.defaults, true, reservedList);
    var refs := CreateParentMixin(ArgsId, sig.argNames);
    if startNow then Failure(AttributeError)
    else Success(Runner(refs, map[ArgsId := nl], Initial()))
  }

  /** `runner.name` for an argument name: the class's descriptor forwards the read. */
  function GetArg<V>(r: Runner<V>, name: string): Result<Option<V>>
    requires WellFormed(r) && name in r.refs
  {
    DescriptorGet(r.refs[name], SomeInstance, r.heap)
  }

  /** `runner.name = value` for an argument name: the write lands on the argument
      list, so reading the name back gives the value, and every other argument
      reads as before. */
  function SetArg<V>(r: Runner<V>, name: string, value: Option<V>): (r': Runner<V>)
    requires WellFormed(r) && name in r.refs
    ensures WellFormed(r') && r'.refs == r.refs && r'.ctl == r.ctl
    ensures GetArg(r', name) == Success(value)
    ensures forall m :: m in r.refs && m != name ==> GetArg(r', m) == GetArg(r, m)
  {
    r.(heap := DescriptorSet(r.refs[name], SomeInstance, r.heap, value).value)
  }

  /** `_start_once()`: the gate stored as `_once` is reached, so this works. */
  function StartOnceRunner<V>(r: Runner<V>): Result<Runner<V>> {
    var c :- StartOnce(r.ctl);
    Success(r.(ctl := c))
  }

  /** `_done()`. */
  function Done<V>(r: Runner<V>): Runner<V> {
    r.(ctl := Stop(r.ctl))
  }

  /** A runner made without `start_now` reads each argument back as the NamedList
      holds it: position `i` of the argument list through the name `argNames[i]`. */
  lemma ArgumentsReadThrough<V>(sig: Signature<V>, reservedCls: set<string>, reservedList: set<string>, i: nat)
    requires New(sig, false, reservedCls, reservedList).Success? && i < |sig.argNames|
    ensures var r := New(sig, false, reservedCls, reservedList).value;
            sig.argNames[i] in r.refs &&
            GetArg(r, sig.argNames[i]) ==
              GetItem(NamedLists.Construct(sig.argNames, sig.defaults, true, reservedList).value, i)
  {
  }

  /** The working start path: from a runner made without `start_now`, any number
      of `_start_once` calls start the thread exactly once, and it is not stopped. */
  lemma StartAfterNew<V>(sig: Signature<V>, reservedCls: set<string>, reservedList: set<string>)
    requires New(sig, false, reservedCls, reservedList).Success?
    ensures var r := New(sig, false, reservedCls, reservedList).value;
            var s := StartOnceRunner(r);
            s.Success? && s.value.ctl.started && !s.value.ctl.loop.done &&
            s.value.ctl.loop.phase == Periodic.AtHead &&
            StartOnceRunner(s.value) == s
  {
  }
}
