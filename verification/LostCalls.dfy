/** What a signal in the middle of a single step costs: the next trap is taken for the end of the step. */
module LostCalls {
  import opened Base
  import opened Memory
  import opened Tracer
  import opened RefCounts
  import opened TextSafety
  import opened Interleaving
  import opened Completeness

  /** A signal that does not make the tracer let go. */
  predicate PlainSignal(stop: Stop) {
    stop.Stopped? && stop.signum != SIGTRAP && stop.signum != SIGSTOP
  }

  /** The thread goes on stepping, as far as the tracer knows, and nothing but the log changes. */
  lemma SignalKeepsStep(s: State, o: Options, tid: nat, signal: Stop)
    requires Inv(s) && s.mode != -1 && SteppingBy(s, tid) && PlainSignal(signal)
    ensures Step(s, o, tid, signal) == Ok(Running(WithPrinter(s, PrintLine(s.printer, o))))
  {
  }

  /** A thread whose step a signal interrupts calls a traced function: whether the text holds the trap there or not,
      the call is lost, unless the shadow stack happens to hold its return address already. */
  lemma {:induction false} SignalLosesCall(w: World, o: Options, tid: nat, signal: Stop, sym: Symbol, ret: Addr)
    requires Complete(w) && tid != 0 && w.s.mode != -1 && SteppingBy(w.s, tid)
    requires PlainSignal(signal) && RealStop(tid, signal)
    requires Possible(w, Call(tid, sym, ret))
    ensures Act(w, o, OtherStop(tid, signal)).Some?
    ensures var w1 := Act(w, o, OtherStop(tid, signal)).value;
      && Complete(w1) && Possible(w1, Call(tid, sym, ret)) && Act(w1, o, Call(tid, sym, ret)).Some?
      && (Complete(Act(w1, o, Call(tid, sym, ret)).value) <==> Embeds(LiveOf(w, tid) + [ret], RetsOf(w.s, tid)))
  {
    hide Complete, Covers, Embeds;
    CompleteMeans(w);
    SignalKeepsStep(w.s, o, tid, signal);
    ActExact(w, o, OtherStop(tid, signal));
    var w1 := Act(w, o, OtherStop(tid, signal)).value;
    CompleteMeans(w1);
    assert LiveOf(w1, tid) == LiveOf(w, tid) && ThreadOf(w1.s, tid) == ThreadOf(w.s, tid);
    SteppingCallRuns(w1, o, tid, sym, ret);
    ActExact(w1, o, Call(tid, sym, ret));
  }

  lemma SteppingCallRuns(w: World, o: Options, tid: nat, sym: Symbol, ret: Addr)
    requires Sane(w) && w.s.mode != -1 && SteppingBy(w.s, tid) && Possible(w, Call(tid, sym, ret))
    ensures Act(w, o, Call(tid, sym, ret)).Some?
  {
    if w.s.text[sym.enterAddr] == TRAP {
      StopIsReal(w, Call(tid, sym, ret));
      TrapClassified(w.s, tid, sym.enterAddr, ret);
      StepKeeps(w.s, o, tid, Trap(sym.enterAddr, ret));
    }
  }

  // --- such a run ---

  const OUTER := Symbol("f", 100)
  const INNER := Symbol("g", 300)

  function Traced(original: Text, o: Options): Setup {
    Setup([OUTER, INNER], original, 1, o)
  }

  /** The first stop makes thread 1 known and plants both breakpoints. */
  lemma Started(original: Text, o: Options, first: Stop)
    requires RealStop(1, first)
    ensures var x := Traced(original, o);
      var w0 := World(Attach(x.symbols, original, 1), map[]);
      && Possible(w0, OtherStop(1, first)) && Act(w0, o, OtherStop(1, first)).Some?
      && var w1 := Act(w0, o, OtherStop(1, first)).value;
      && Complete(w1) && TextExact(w1.s, original) && LiveOf(w1, 1) == []
      && w1.s.symbols == x.symbols && Idle(w1.s, 0, 1)
      && NoSteps(w1.s)
  {
    hide Complete, TextExact, Covers;
    var x := Traced(original, o);
    var w0 := World(Attach(x.symbols, original, 1), map[]);
    StartsComplete(x);
    CompleteMeans(w0);
    StartsFresh(x);
    InsertSymbolsQuiet(Unattached(x.symbols, original), x.symbols);
    InsertSymbolsCounts(Unattached(x.symbols, original), x.symbols);
    assert FindTid(w0.s.threads, 1, 0) == MAX_THREADS_TRACED && FindTid(w0.s.threads, 0, 0) == 0;
    var w1 := Act(w0, o, OtherStop(1, first)).value;
    ActExact(w0, o, OtherStop(1, first));
    ActKeepsText(w0, o, OtherStop(1, first), original);
  }

  predicate NoSteps(s: State) {
    forall k :: 0 <= k < |s.threads| ==> s.threads[k].beingEnabled == None
  }

  /** The trap at f's entry. */
  lemma StopsOuter(s: State, original: Text, o: Options)
    requires Inv(s) && TextSafe(s, original) && s.symbols == [OUTER, INNER] && Idle(s, 0, 1)
    ensures Step(s, o, 1, Trap(100, 200)).Ok? && Step(s, o, 1, Trap(100, 200)).value.Running?
    ensures var s' := Step(s, o, 1, Trap(100, 200)).value.s;
      s'.mode == 1 && SteppingBy(s', 1) && s'.symbols == s.symbols && RetsOf(s', 1) == [200]
  {
    hide Inv, Step;
    CallStarts(s, original, o, 0, 1, 100, Trap(100, 200));
    TrapClassified(s, 1, 100, 200);
    HeardTrap(s, o, 1, Trap(100, 200));
    assert Rets([]) + [200] == [200];
  }

  /** Thread 1 calls f from there: it is left stepping, one frame up. */
  lemma CallsOuter(w: World, original: Text, o: Options)
    requires Complete(w) && TextExact(w.s, original) && LiveOf(w, 1) == []
    requires w.s.symbols == [OUTER, INNER] && Idle(w.s, 0, 1) && NoSteps(w.s)
    ensures Possible(w, Call(1, OUTER, 200)) && Act(w, o, Call(1, OUTER, 200)).Some?
    ensures var w' := Act(w, o, Call(1, OUTER, 200)).value;
      && Complete(w') && w'.s.mode == 1 && SteppingBy(w'.s, 1) && w'.s.symbols == [OUTER, INNER]
      && LiveOf(w', 1) == [200] && RetsOf(w'.s, 1) == [200]
  {
    hide Complete, Step, TextExact, Inv, Rets, Embeds;
    CompleteMeans(w);
    ExactMeans(w.s, original);
    assert w.s.symbols[0] == OUTER && IsEntry(w.s, 100);
    CallsAndReturnsTrap(w, original, 100);
    StopsOuter(w.s, original, o);
    ActExact(w, o, Call(1, OUTER, 200));
  }

  lemma ExactMeans(s: State, original: Text)
    requires TextExact(s, original)
    ensures TextSafe(s, original) && s.mode == 1
  {
  }

  /** Thread 1 calls f; a signal arrives while it steps over f's breakpoint; f calls g. From then on g's return address
      is missing from the shadow stack: the call of g is lost, and so is its return. */
  lemma {:induction false} LostCallRun(original: Text, o: Options, first: Stop, signal: Stop)
    returns (worlds: seq<World>)
    requires PlainSignal(signal) && RealStop(1, signal) && RealStop(1, first)
    ensures Plays(Traced(original, o), worlds,
      [OtherStop(1, first), Call(1, OUTER, 200), OtherStop(1, signal), Call(1, INNER, 150)])
    ensures Complete(worlds[3]) && !Complete(worlds[4])
  {
    hide Complete, Act;
    var w0 := World(Attach([OUTER, INNER], original, 1), map[]);
    Started(original, o, first);
    var w1 := Act(w0, o, OtherStop(1, first)).value;
    CallsOuter(w1, original, o);
    var w2 := Act(w1, o, Call(1, OUTER, 200)).value;
    assert w2.s.symbols[1] == INNER;
    SignalLosesCall(w2, o, 1, signal, INNER, 150);
    NotEmbedded();
    var w3 := Act(w2, o, OtherStop(1, signal)).value;
    var w4 := Act(w3, o, Call(1, INNER, 150)).value;
    worlds := [w0, w1, w2, w3, w4];
  }

  lemma NotEmbedded()
    ensures !Embeds([200] + [150], [200])
  {
    assert ([200] + [150])[1] == 150;
  }
}
