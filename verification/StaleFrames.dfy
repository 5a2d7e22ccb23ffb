/** What a longjmp costs: the next return may be logged as that of a call that was left. */
module StaleFrames {
  import opened Base
  import opened Memory
  import opened Tracer
  import opened RefCounts
  import opened TextSafety
  import opened LineJoin
  import opened Completeness
  import opened Attribution
  import opened LostCalls

  /** Thread 1 is known, nothing is being stepped over, and log and stacks are right. */
  ghost predicate Ready(w: World, original: Text) {
    && Matched(w) && TextExact(w.s, original) && w.s.symbols == [OUTER, INNER]
    && FindTid(w.s.threads, 1, 0) < |w.s.threads| && Undisturbed(w.s, 1) && !SteppingBy(w.s, 1)
  }

  /** The same, but thread 1 is stepping. */
  ghost predicate Steps(w: World, original: Text) {
    && Matched(w) && TextExact(w.s, original) && w.s.symbols == [OUTER, INNER]
    && FindTid(w.s.threads, 1, 0) < |w.s.threads| && Undisturbed(w.s, 1) && SteppingBy(w.s, 1)
  }

  /** A call leaves its thread stepping over the entry; a trap then ends the step. */
  lemma TrapSteps(s: State, o: Options, k: nat, addr: Addr, ret: Addr)
    requires Inv(s) && k < |s.threads| && s.threads[k].tid != 0 && addr != 0
    requires FindFrame(s.threads[k].callstack, addr, |s.threads[k].callstack|) < 0
    requires FindSymbol(s.symbols, addr, 0) < |s.symbols|
    ensures var r := HandleBreakpoint(s, o, k, addr, ret);
      && r.Ok? && |r.value.threads| == |s.threads| && r.value.symbols == s.symbols
      && r.value.threads[k].tid == s.threads[k].tid
      && (r.value.threads[k].beingEnabled.Some? <==> s.threads[k].beingEnabled == None)
      && (forall j :: 0 <= j < |s.threads| && j != k ==> r.value.threads[j] == s.threads[j])
  {
    hide Inv, Called;
    BreakpointKeeps(s, o, k, addr, ret);
    if s.threads[k].beingEnabled == None {
      var j := FindSymbol(s.symbols, addr, 0);
      CalledKeeps(s, o, k, s.symbols[j], ret);
      SymbolInDictionary(Called(s, o, k, s.symbols[j], ret), j);
    }
  }

  /** What thread 1's trap at f's entry does to the threads. */
  lemma {:induction false} EntryTrap(w: World, original: Text, o: Options, ret: Addr)
    requires Matched(w) && TextExact(w.s, original) && w.s.symbols == [OUTER, INNER]
    requires FindTid(w.s.threads, 1, 0) < |w.s.threads| && Undisturbed(w.s, 1)
    ensures Step(w.s, o, 1, Trap(100, ret)).Ok? && Step(w.s, o, 1, Trap(100, ret)).value.Running?
    ensures var s' := Step(w.s, o, 1, Trap(100, ret)).value.s;
      && s'.symbols == w.s.symbols && FindTid(s'.threads, 1, 0) < |s'.threads| && Undisturbed(s', 1)
      && (SteppingBy(s', 1) <==> !SteppingBy(w.s, 1))
  {
    hide Inv, HandleBreakpoint, FrameCalls;
    MatchedIsComplete(w);
    MatchedMeans(w);
    ExactMeans(w.s, original);
    TrapClassified(w.s, 1, 100, ret);
    SlotOf(w.s, 1);
    var k := FindTid(w.s.threads, 1, 0);
    assert Covers(w.s, Rets(StackOf(w.s, 1)), LiveOf(w, 1));
    assert w.s.symbols[0] == OUTER;
    EntryIsNoReturn(w.s, StackOf(w.s, 1), OUTER);
    TrapSteps(w.s, o, k, 100, ret);
    var s' := HandleBreakpoint(w.s, o, k, 100, ret).value;
    Distinct(w.s);
    assert TidsDistinct(s'.threads);
    FirstIsOnly(s'.threads, 1, k);
  }

  lemma {:induction false} CallsAgain(w: World, original: Text, o: Options)
    requires Ready(w, original) && |StackOf(w.s, 1)| < MAX_CALLDEPTH - 1
    ensures Possible(w, Call(1, OUTER, 200)) && Orderly(w, Call(1, OUTER, 200)) && Act(w, o, Call(1, OUTER, 200)).Some?
    ensures var w' := Act(w, o, Call(1, OUTER, 200)).value;
      && Steps(w', original) && |StackOf(w'.s, 1)| == |StackOf(w.s, 1)| + 1 && w'.s.calls == w.s.calls + 1
      && CallsOf(w', 1) == CallsOf(w, 1) + [LiveCall(200, Some(w.s.calls))]
  {
    hide Inv, Step, FrameCalls, Complete, Matched, Embeds;
    var action := Call(1, OUTER, 200);
    MatchedMeans(w);
    MatchedIsComplete(w);
    ExactMeans(w.s, original);
    NobodySteps(w.s, 1);
    assert w.s.symbols[0] == OUTER && IsEntry(w.s, 100);
    CallsAndReturnsTrap(w, original, 100);
    EntryTrap(w, original, o, 200);
    ActMatched(w, o, action);
    ActKeepsText(w, o, action, original);
    CoversThread(w, 1);
    EntryIsNoReturn(w.s, StackOf(w.s, 1), OUTER);
    CallShown(w, o, 1, OUTER, 200);
    TrapClassified(w.s, 1, 100, 200);
    HeardTrap(w.s, o, 1, Trap(100, 200));
  }

  lemma CoversThread(w: World, tid: nat)
    requires Complete(w) && tid != 0
    ensures Covers(w.s, RetsOf(w.s, tid), LiveOf(w, tid))
  {
  }

  lemma {:induction false} StepOver(w: World, original: Text, o: Options)
    requires Steps(w, original)
    ensures var action := OtherStop(1, Trap(100, 0));
      Possible(w, action) && Orderly(w, action) && Act(w, o, action).Some?
    ensures var w' := Act(w, o, OtherStop(1, Trap(100, 0))).value;
      && Ready(w', original) && |StackOf(w'.s, 1)| <= |StackOf(w.s, 1)| + 1 && w'.s.calls == w.s.calls
      && CallsOf(w', 1) == CallsOf(w, 1)
  {
    hide Inv, Step, FrameCalls, Complete, Matched, Embeds;
    var action := OtherStop(1, Trap(100, 0));
    MatchedMeans(w);
    ExactMeans(w.s, original);
    EntryTrap(w, original, o, 0);
    ActMatched(w, o, action);
    ActKeepsText(w, o, action, original);
    TrapClassified(w.s, 1, 100, 0);
    OtherwiseSame(w.s, o, 1, Trap(100, 0));
    StepSilent(w.s, o);
  }

  lemma StepSilent(s: State, o: Options)
    requires Inv(s) && s.mode != -1 && SteppingBy(s, 1) && Step(s, o, 1, Trap(100, 0)).Ok?
    requires Step(s, o, 1, Trap(100, 0)).value.Running? && Classify(ThreadOf(s, 1), Trap(100, 0)).BreakpointHit?
    ensures var s' := Step(s, o, 1, Trap(100, 0)).value.s; s'.calls == s.calls && s'.mode == s.mode
  {
  }

  lemma NotUnderWay(w: World, action: Action)
    requires action.OtherStop? && Possible(w, action) && w.s.mode == -1
    requires forall k :: 0 <= k < |w.s.threads| ==> w.s.threads[k].beingEnabled == None
    ensures Straight(w, action) && Orderly(w, action)
  {
  }

  lemma StartsReady(original: Text, o: Options, first: Stop)
    requires RealStop(1, first)
    ensures var x, action := Traced(original, o), OtherStop(1, first);
      var w0 := World(Attach(x.symbols, original, 1), map[]);
      && Possible(w0, action) && Orderly(w0, action) && Act(w0, o, action).Some?
      && var w1 := Act(w0, o, action).value;
      Ready(w1, original) && CallsOf(w1, 1) == [] && StackOf(w1.s, 1) == []
  {
    hide TextExact, FrameCalls, Step;
    var x, action := Traced(original, o), OtherStop(1, first);
    var w0 := World(Attach(x.symbols, original, 1), map[]);
    Started(original, o, first);
    StartsMatched(x);
    InsertSymbolsQuiet(Unattached(x.symbols, original), x.symbols);
    NotUnderWay(w0, action);
    ActMatched(w0, o, action);
  }

  lemma {:induction false} InnerLeft(w: World, original: Text, o: Options, a: nat, b: nat)
    requires Ready(w, original) && StateJoined(w.s, o) && !o.countOnly && a != b
    requires CallsOf(w, 1) == [LiveCall(200, Some(a)), LiveCall(200, Some(b))]
    ensures Possible(w, Unwind(1, 1)) && Orderly(w, Unwind(1, 1)) && Act(w, o, Unwind(1, 1)).Some?
    ensures var w1 := Act(w, o, Unwind(1, 1)).value;
      && Possible(w1, Return(1)) && Orderly(w1, Return(1)) && Act(w1, o, Return(1)).Some?
      && !Tells(w1, o, Return(1), Act(w1, o, Return(1)).value)
  {
    hide Inv, Step, FrameCalls, Complete, Matched, Joined, CallsAfter;
    MatchedIsComplete(w);
    MatchedMeans(w);
    ExactMeans(w.s, original);
    NobodySteps(w.s, 1);
    assert LiveOf(w, 1)[0] == 200;
    CallsAndReturnsTrap(w, original, 200);
    var m := ReturnAfterUnwind(w, o, 1, 1);
    var w1 := Act(w, o, Unwind(1, 1)).value;
    var p := Act(w1, o, Return(1)).value.s.printer;
    var depth :| p == PrintRight(w.s.printer, o, 1, depth, CallsOf(w, 1)[m].call.value);
    assert CallsOf(w, 1)[1].ret == 200 && m == 1;
    assert p.items[|w.s.printer.items|].call == b;
    assert Innermost(w1, 1) == LiveCall(200, Some(a));
  }

  /** f calls itself from the call site it was called from, and a longjmp leaves the inner call: every stop is orderly
      and every call and return heard, yet the outer call's return is logged as the inner one's. */
  lemma {:induction false} StaleFrameRun(original: Text, o: Options, first: Stop) returns (worlds: seq<World>)
    requires RealStop(1, first) && !o.countOnly
    ensures var actions :=
      [OtherStop(1, first), Call(1, OUTER, 200), OtherStop(1, Trap(100, 0)), Call(1, OUTER, 200),
       OtherStop(1, Trap(100, 0)), Unwind(1, 1), Return(1)];
      && Plays(Traced(original, o), worlds, actions)
      && (forall i :: 0 <= i < |actions| ==> Orderly(worlds[i], actions[i]))
      && Possible(worlds[6], Return(1)) && !Tells(worlds[6], o, Return(1), worlds[7])
  {
    hide Act, Ready, Steps, Orderly, Possible;
    var w0 := World(Attach([OUTER, INNER], original, 1), map[]);
    StartsReady(original, o, first);
    var w1 := Act(w0, o, OtherStop(1, first)).value;
    CallsAgain(w1, original, o);
    var w2 := Act(w1, o, Call(1, OUTER, 200)).value;
    StepOver(w2, original, o);
    var w3 := Act(w2, o, OtherStop(1, Trap(100, 0))).value;
    CallsAgain(w3, original, o);
    var w4 := Act(w3, o, Call(1, OUTER, 200)).value;
    StepOver(w4, original, o);
    var w5 := Act(w4, o, OtherStop(1, Trap(100, 0))).value;
    assert Plays(Traced(original, o), [w0, w1, w2, w3, w4, w5],
      [OtherStop(1, first), Call(1, OUTER, 200), OtherStop(1, Trap(100, 0)), Call(1, OUTER, 200),
       OtherStop(1, Trap(100, 0))]);
    RunKeepsJoined(Traced(original, o), [w0, w1, w2, w3, w4, w5],
                   [OtherStop(1, first), Call(1, OUTER, 200), OtherStop(1, Trap(100, 0)), Call(1, OUTER, 200),
                    OtherStop(1, Trap(100, 0))], 5);
    assert CallsOf(w5, 1) == [LiveCall(200, Some(w1.s.calls)), LiveCall(200, Some(w1.s.calls + 1))];
    InnerLeft(w5, original, o, w1.s.calls, w1.s.calls + 1);
    var w6 := Act(w5, o, Unwind(1, 1)).value;
    var w7 := Act(w6, o, Return(1)).value;
    worlds := [w0, w1, w2, w3, w4, w5, w6, w7];
  }
}
