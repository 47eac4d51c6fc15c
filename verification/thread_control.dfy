/** The start and stop controls both runner variants share: `_start_once` passes
    `thread.start` to a CallOnce gate, `_done` kills the loop
    (threading-progress/progress.py:640-648, threading-progress/progress2.py:666-674). */
module ThreadControl {
  import opened Py
  import opened Once
  import opened Periodic

  /** The gate (`__once` / `_once`), whether the thread has been started, and the loop. */
  datatype Control<V> = Control(once: Gate, started: bool, loop: Loop<V>)

  /** The control right after construction, before any start. */
  function Initial<V>(): Control<V> { Control(Fresh(), false, Periodic.Init()) }

  /** The gate is closed exactly when the thread has been started, and the loop
      has been entered exactly then. */
  predicate Consistent<V>(c: Control<V>) {
    c.once.done == c.started && (c.loop.phase == Idle <==> !c.started)
  }

  /** `Thread.start()`: a second start of the same thread raises `RuntimeError`. */
  function ThreadStart<V>(c: Control<V>): Outcome<()> {
    if c.started then Raises(RuntimeError) else Returns(())
  }

  /** `once(thread.start)`. */
  function StartOnce<V>(c: Control<V>): (r: Result<Control<V>>)
    ensures Consistent(c) ==> r.Success? && Consistent(r.value) && r.value.started
    ensures Consistent(c) ==> r.value.loop == Enter(c.loop)
    ensures Consistent(c) && c.started ==> r.value == c
    ensures !c.once.done && c.started ==> r == Failure(RuntimeError)
  {
    var call := Once.Call(c.once, ThreadStart(c));
    if call.ret.Failure? then Failure(call.ret.error)
    else if call.ran then Success(Control(call.gate, true, Enter(c.loop)))
    else Success(c.(once := call.gate))
  }

  /** `_done()`. */
  function Stop<V>(c: Control<V>): (r: Control<V>)
    ensures r.loop.done && r.once == c.once && r.started == c.started && r.loop.phase == c.loop.phase
  {
    c.(loop := Kill(c.loop))
  }

  /** Starting is idempotent and never raises: a second `_start_once` changes nothing. */
  lemma StartOnceIdempotent<V>(c: Control<V>)
    requires Consistent(c)
    ensures StartOnce(StartOnce(c).value) == StartOnce(c)
  {
  }

  /** However many times `_start_once` is called, the thread is started exactly once:
      the first call enters the loop and every later call is a no-op. */
  lemma {:induction false} StartManyTimes<V>(c: Control<V>, n: nat)
    requires Consistent(c) && n >= 1
    ensures StartRepeated(c, n) == StartOnce(c).value
    decreases n
  {
    if n > 1 {
      StartManyTimes(c, n - 1);
      StartOnceIdempotent(c);
    }
  }

  function StartRepeated<V>(c: Control<V>, n: nat): Control<V>
    requires Consistent(c)
    ensures Consistent(StartRepeated(c, n))
    decreases n
  {
    if n == 0 then c else StartOnce(StartRepeated(c, n - 1)).value
  }
}
