/** CallOnce (threading-progress/progress.py:457-480, threading-progress/progress2.py:500-523):
    a gate that runs the function it is handed only while no earlier run has
    completed. The lock only serialises callers; the model is the sequence of
    calls in the order the lock admits them. A call is given the outcome the
    function WOULD have if run, since the function is not visible to the gate. */
module Once {
  import opened Py

  /** The `__done` flag. */
  datatype Gate = Gate(done: bool)

  /** The result of one `__call__`: the new gate, whether the function ran, and
      what the call returned or raised. */
  datatype CallResult<R> = CallResult(gate: Gate, ran: bool, ret: Result<Option<R>>)

  /** A freshly constructed gate. */
  function Fresh(): Gate { Gate(false) }

  /** `call_once(func)`: runs `func` only while not done; a raising run leaves the
      flag unset (the assignment after the call is skipped) and the exception escapes. */
  function Call<R>(g: Gate, f: Outcome<R>): (r: CallResult<R>)
    ensures r.ran <==> !g.done
    ensures !r.ran ==> r.gate == g && r.ret == Success(None)
    ensures r.gate.done <==> g.done || f.Returns?
    ensures r.ran ==> r.ret == (match f case Returns(v) => Success(Some(v)) case Raises(e) => Failure(e))
  {
    if g.done then CallResult(g, false, Success(None))
    else match f
      case Returns(v) => CallResult(Gate(true), true, Success(Some(v)))
      case Raises(e) => CallResult(g, true, Failure(e))
  }

  /** A series of calls through one gate, call `i` with outcome `fs[i]`. */
  function Replay<R>(g: Gate, fs: seq<Outcome<R>>): (rs: seq<CallResult<R>>)
    ensures |rs| == |fs|
    decreases |fs|
  {
    if |fs| == 0 then []
    else
      var c := Call(g, fs[0]);
      [c] + Replay(c.gate, fs[1..])
  }

  /** The number of calls that ran the function and returned normally. */
  function SuccessfulRuns<R>(rs: seq<CallResult<R>>): nat
    decreases |rs|
  {
    if |rs| == 0 then 0
    else (if rs[0].ran && rs[0].ret.Success? then 1 else 0) + SuccessfulRuns(rs[1..])
  }

  /** Call `i` runs the function exactly when the gate was open at the start and
      every earlier call raised; a call that does not run returns `None`. */
  lemma {:induction false} RunsUntilFirstSuccess<R>(g: Gate, fs: seq<Outcome<R>>)
    ensures forall i :: 0 <= i < |fs| ==>
              (Replay(g, fs)[i].ran <==> !g.done && forall j :: 0 <= j < i ==> fs[j].Raises?)
    ensures forall i :: 0 <= i < |fs| && !Replay(g, fs)[i].ran ==> Replay(g, fs)[i].ret == Success(None)
    decreases |fs|
  {
    if |fs| > 0 {
      var c := Call(g, fs[0]);
      RunsUntilFirstSuccess(c.gate, fs[1..]);
      var rs := Replay(g, fs);
      assert rs == [c] + Replay(c.gate, fs[1..]);
      forall i | 0 <= i < |fs|
        ensures rs[i].ran <==> !g.done && forall j :: 0 <= j < i ==> fs[j].Raises?
      {
        if i > 0 {
          assert rs[i] == Replay(c.gate, fs[1..])[i - 1];
          if !g.done && fs[0].Raises? {
            assert forall j :: 0 <= j < i - 1 ==> fs[1..][j] == fs[j + 1];
          }
        }
      }
    }
  }

  /** However the calls turn out, the function completes at most once, and it
      completes once exactly when the gate was open and some call's run returns. */
  lemma {:induction false} AtMostOneSuccess<R>(g: Gate, fs: seq<Outcome<R>>)
    ensures SuccessfulRuns(Replay(g, fs)) <= 1
    ensures SuccessfulRuns(Replay(g, fs)) == 1 <==> !g.done && exists i :: 0 <= i < |fs| && fs[i].Returns?
    ensures Replay(g, fs) != [] ==> (Replay(g, fs)[|fs| - 1].gate.done <==> g.done || exists i :: 0 <= i < |fs| && fs[i].Returns?)
    decreases |fs|
  {
    if |fs| > 0 {
      var c := Call(g, fs[0]);
      var rs := Replay(g, fs);
      assert rs[1..] == Replay(c.gate, fs[1..]);
      AtMostOneSuccess(c.gate, fs[1..]);
      if c.gate.done {
        DoneGateNeverRuns(c.gate, fs[1..]);
      }
      if exists i :: 0 <= i < |fs| && fs[i].Returns? {
        var i :| 0 <= i < |fs| && fs[i].Returns?;
        if i > 0 { assert fs[1..][i - 1].Returns?; }
      }
      if exists i :: 0 <= i < |fs| - 1 && fs[1..][i].Returns? {
        var i :| 0 <= i < |fs| - 1 && fs[1..][i].Returns?;
        assert fs[i + 1].Returns?;
      }
      if |fs| > 1 {
        assert rs[|fs| - 1] == Replay(c.gate, fs[1..])[|fs| - 2];
      }
    }
  }

  /** A gate that is already done never runs the function again. */
  lemma {:induction false} DoneGateNeverRuns<R>(g: Gate, fs: seq<Outcome<R>>)
    requires g.done
    ensures SuccessfulRuns(Replay(g, fs)) == 0
    ensures forall i :: 0 <= i < |fs| ==> Replay(g, fs)[i] == CallResult(g, false, Success(None))
    decreases |fs|
  {
    if |fs| > 0 {
      DoneGateNeverRuns(g, fs[1..]);
      assert Replay(g, fs) == [CallResult(g, false, Success(None))] + Replay(g, fs[1..]);
    }
  }
}
