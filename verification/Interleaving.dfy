/** Why only the stepping thread's stops may come during a step: two threads that step over one breakpoint at the
    same time leave a trap behind for good. */
module Interleaving {
  import opened Base
  import opened Memory
  import opened Tracer
  import opened RefCounts
  import opened TextSafety

  predicate TrapStop(stop: Stop) {
    stop.Stopped? && stop.signum == SIGTRAP && stop.sysnum < 0
  }

  /** A trap stop at the end of the instruction at `a`. */
  predicate TrapAt(stop: Stop, a: Addr) {
    TrapStop(stop) && DecrPc(stop.pc) == a
  }

  /** Slot `k` is thread `tid`'s, which is not inside any traced call or step. */
  predicate Idle(s: State, k: nat, tid: nat) {
    k == FindTid(s.threads, tid, 0) < |s.threads| && s.threads[k] == ThreadState(tid, [], None)
  }

  /** Slot `k` is thread `tid`'s, which steps over the breakpoint at `a`. */
  predicate Stepping(s: State, k: nat, tid: nat, a: Addr) {
    && k == FindTid(s.threads, tid, 0) < |s.threads| && s.threads[k].beingEnabled == Some(a)
    && (s.threads[k].callstack == [] || s.threads[k].callstack[|s.threads[k].callstack| - 1].FuncFrame?)
  }

  lemma SameSlot(threads: seq<ThreadState>, threads': seq<ThreadState>, tid: nat)
    requires |threads'| == |threads| && forall i :: 0 <= i < |threads| ==> threads'[i].tid == threads[i].tid
    ensures FindTid(threads', tid, 0) == FindTid(threads, tid, 0)
  {
  }

  lemma CallStep(s: State, o: Options, k: nat, tid: nat, a: Addr, stop: Stop)
    requires s.mode == 1 && TrapAt(stop, a) && Idle(s, k, tid) && FindSymbol(s.symbols, a, 0) < |s.symbols|
    ensures var s1 := Called(s, o, k, s.symbols[FindSymbol(s.symbols, a, 0)], stop.ret);
      && s1.symbols == s.symbols && |s1.threads| == |s.threads|
      && (forall i :: 0 <= i < |s.threads| && i != k ==> s1.threads[i] == s.threads[i])
      && s1.threads[k].tid == tid && |s1.threads[k].callstack| == 1 && s1.threads[k].callstack[0].FuncFrame?
      && var lifted := if Active(s1, a) then DisableBp(s1, a) else s1;
      Active(s1, a) ==>
        Step(s, o, tid, stop) == Ok(Running(SetThread(lifted, k, s1.threads[k].(beingEnabled := Some(a)))))
  {
  }

  /** An idle thread calls the function at `a`: it is continued over the lifted breakpoint. */
  lemma CallStarts(s: State, original: Text, o: Options, k: nat, tid: nat, a: Addr, stop: Stop)
    requires TextSafe(s, original) && Inv(s) && tid != 0 && a != 0 && TrapAt(stop, a) && Idle(s, k, tid)
    requires FindSymbol(s.symbols, a, 0) < |s.symbols|
    ensures Step(s, o, tid, stop).Ok? && Step(s, o, tid, stop).value.Running?
    ensures var s' := Step(s, o, tid, stop).value.s;
      && TextSafe(s', original) && Inv(s') && Stepping(s', k, tid, a) && s'.symbols == s.symbols
      && |s'.threads| == |s.threads| && (forall i :: 0 <= i < |s.threads| && i != k ==> s'.threads[i] == s.threads[i])
      && (forall t :: FindTid(s'.threads, t, 0) == FindTid(s.threads, t, 0))
      && Active(s', a)
  {
    hide Step, Called, Inv;
    StepKeeps(s, o, tid, stop);
    StepExact(s, original, o, tid, stop);
    var j := FindSymbol(s.symbols, a, 0);
    var s1 := Called(s, o, k, s.symbols[j], stop.ret);
    CalledKeeps(s, o, k, s.symbols[j], stop.ret);
    CallStep(s, o, k, tid, a, stop);
    SymbolInDictionary(s1, j);
    var s' := Step(s, o, tid, stop).value.s;
    forall t ensures FindTid(s'.threads, t, 0) == FindTid(s.threads, t, 0) {
      SameSlot(s.threads, s'.threads, t);
    }
  }

  /** The end of a step saves whatever byte is there and plants the trap over it. */
  lemma StepEnds(s: State, o: Options, k: nat, tid: nat, a: Addr, stop: Stop)
    requires Inv(s) && s.mode == 1 && tid != 0 && TrapStop(stop) && Stepping(s, k, tid, a) && a in s.breakpoints
    ensures Step(s, o, tid, stop) ==
      Ok(Running(SetThread(EnableBp(s, a), k, s.threads[k].(beingEnabled := None))))
    ensures Inv(Step(s, o, tid, stop).value.s)
  {
    hide Inv;
    ReinsertKeeps(s, k);
  }

  /** The session goes on from `r` with the stops `ys`. */
  ghost function Then(r: Outcome<Next>, o: Options, ys: seq<Input>): Outcome<Next> {
    if r.Ok? && r.value.Running? then Run(r.value.s, o, ys) else r
  }

  lemma {:induction false} RunAppend(s: State, o: Options, xs: seq<Input>, ys: seq<Input>)
    ensures Run(s, o, xs + ys) == Then(Run(s, o, xs), o, ys)
    decreases |ys|
  {
    hide Step;
    if ys == [] {
      assert xs + ys == xs;
    } else {
      var init, last := ys[..|ys| - 1], ys[|ys| - 1];
      assert (xs + ys)[..|xs + ys| - 1] == xs + init;
      RunAppend(s, o, xs, init);
    }
  }

  lemma RunOne(s: State, o: Options, x: Input, ys: seq<Input>)
    ensures Run(s, o, [x] + ys) == Then(Step(s, o, x.tid, x.stop), o, ys)
  {
    RunAppend(s, o, [x], ys);
    assert [x][..0] == [];
  }

  /** The session goes on, but letting go of the process now leaves the trap at `a`. */
  ghost predicate LeavesTrap(r: Outcome<Next>, a: Addr) {
    r.Ok? && r.value.Running? && Inv(r.value.s) && r.value.s.mode == 1 && DisableAll(r.value.s).text[a] == TRAP
  }

  /** Two idle threads call the function at `a`, the second before the first has finished its step: once both
      steps are over, disabling every breakpoint leaves the trap in the text. */
  lemma OverlapCorrupts(s: State, original: Text, o: Options, k1: nat, k2: nat, tid1: nat, tid2: nat, a: Addr,
                        call1: Stop, call2: Stop, end1: Stop, end2: Stop)
    requires TextSafe(s, original) && Inv(s) && tid1 != 0 && tid2 != 0 && tid1 != tid2 && a != 0
    requires Idle(s, k1, tid1) && Idle(s, k2, tid2)
    requires FindSymbol(s.symbols, a, 0) < |s.symbols| && original[a] != TRAP
    requires TrapAt(call1, a) && TrapAt(call2, a) && TrapStop(end1) && TrapStop(end2)
    ensures LeavesTrap(Run(s, o, [Input(tid1, call1), Input(tid2, call2), Input(tid1, end1), Input(tid2, end2)]), a)
  {
    hide Step, Inv;
    var i1, i2, i3, i4 := Input(tid1, call1), Input(tid2, call2), Input(tid1, end1), Input(tid2, end2);
    CallStarts(s, original, o, k1, tid1, a, call1);
    var s1 := Step(s, o, tid1, call1).value.s;
    CallStarts(s1, original, o, k2, tid2, a, call2);
    var s2 := Step(s1, o, tid2, call2).value.s;
    BothEnd(s2, o, k1, k2, tid1, tid2, a, end1, end2);
    RunOne(s, o, i1, [i2, i3, i4]);
    RunOne(s1, o, i2, [i3, i4]);
    assert [i1, i2, i3, i4] == [i1] + [i2, i3, i4] && [i2, i3, i4] == [i2] + [i3, i4];
  }

  lemma BothEnd(s: State, o: Options, k1: nat, k2: nat, tid1: nat, tid2: nat, a: Addr, end1: Stop, end2: Stop)
    requires Inv(s) && s.mode == 1 && tid1 != 0 && tid2 != 0 && tid1 != tid2
    requires Stepping(s, k1, tid1, a) && Stepping(s, k2, tid2, a) && Active(s, a)
    requires TrapStop(end1) && TrapStop(end2)
    ensures LeavesTrap(Run(s, o, [Input(tid1, end1), Input(tid2, end2)]), a)
  {
    hide Inv, Step;
    var i1, i2 := Input(tid1, end1), Input(tid2, end2);
    StepEnds(s, o, k1, tid1, a, end1);
    var s1 := Step(s, o, tid1, end1).value.s;
    SameSlot(s.threads, s1.threads, tid2);
    StepEnds(s1, o, k2, tid2, a, end2);
    RunOne(s, o, i1, [i2]);
    RunOne(s1, o, i2, []);
    assert [i1, i2] == [i1] + [i2] && [i2] == [i2] + [];
  }

  // --- such a run exists ---

  const FUNCTION := Symbol("f", 100)

  ghost predicate BothIdle(r: Outcome<Next>, original: Text) {
    && r.Ok? && r.value.Running? && TextSafe(r.value.s, original) && Inv(r.value.s)
    && Idle(r.value.s, 0, 1) && Idle(r.value.s, 1, 2) && r.value.s.symbols == [FUNCTION]
  }

  /** Attached to a program with one traced function: thread 1's first stop, then a signal that makes
      thread 2 known. */
  lemma TwoIdleThreads(original: Text, o: Options, first: Stop, signal: Stop)
    requires signal.Stopped? && signal.signum != SIGTRAP && signal.signum != SIGSTOP && RealStop(2, signal)
    requires RealStop(1, first)
    ensures BothIdle(Run(Attach([FUNCTION], original, 1), o, [Input(1, first), Input(2, signal)]), original)
  {
    var start := Attach([FUNCTION], original, 1);
    AttachInv([FUNCTION], original, 1);
    InsertSymbolsQuiet(Unattached([FUNCTION], original), [FUNCTION]);
    var t0 := start.threads[0 := ThreadState(1, [], None)];
    var t1 := t0[1 := ThreadState(2, [], None)];
    assert FindTid(start.threads, 1, 0) == MAX_THREADS_TRACED && FindTid(start.threads, 0, 0) == 0;
    assert FindTid(t0, 2, 0) == MAX_THREADS_TRACED && FindTid(t0, 0, 0) == 1;
    FirstStep(start, original, o, 1, first);
    StepKeeps(start, o, 1, first);
    var s1 := Step(start, o, 1, first).value.s;
    assert s1.threads == t0;
    StepExact(s1, original, o, 2, signal);
    StepKeeps(s1, o, 2, signal);
    RunOne(start, o, Input(1, first), [Input(2, signal)]);
    RunOne(s1, o, Input(2, signal), []);
    assert [Input(1, first), Input(2, signal)] == [Input(1, first)] + [Input(2, signal)];
    assert [Input(2, signal)] == [Input(2, signal)] + [];
  }

  function CallAt(a: Addr): Stop {
    Stopped(SIGTRAP, -1, a + 1, 200, false)
  }

  /** From attachment on, six stops that end with a trap which letting go does not take out. */
  lemma CorruptingRun(original: Text, o: Options) returns (inputs: seq<Input>)
    requires original[100] != TRAP
    ensures |inputs| == 6 && RealStops(inputs) && LeavesTrap(Run(Attach([FUNCTION], original, 1), o, inputs), 100)
  {
    hide Run, Attach;
    var known := [Input(1, CallAt(100)), Input(2, Stopped(2, -1, 8, 0, false))];
    var both := [Input(1, CallAt(100)), Input(2, CallAt(100)), Input(1, CallAt(101)), Input(2, CallAt(101))];
    inputs := known + both;
    var start := Attach([FUNCTION], original, 1);
    TwoIdleThreads(original, o, CallAt(100), Stopped(2, -1, 8, 0, false));
    var s := Run(start, o, known).value.s;
    OverlapCorrupts(s, original, o, 0, 1, 1, 2, 100, CallAt(100), CallAt(100), CallAt(101), CallAt(101));
    RunAppend(start, o, known, both);
  }
}
