/** Whose return it is: when the return that is logged is the return of the call that returned. */
module Attribution {
  import opened Base
  import opened Memory
  import opened Tracer
  import opened RefCounts
  import opened LineJoin
  import opened Completeness

  // --- the calls a stack stands for ---

  /** The function frames of a stack. */
  function FrameCalls(stack: seq<Frame>): (calls: seq<LiveCall>) {
    if stack == [] then []
    else
      var calls, top := FrameCalls(stack[..|stack| - 1]), stack[|stack| - 1];
      if top.FuncFrame? then calls + [LiveCall(top.retAddr, Some(top.call))] else calls
  }

  lemma FrameCallsPushed(stack: seq<Frame>, f: Frame)
    ensures FrameCalls(stack + [f]) ==
      if f.FuncFrame? then FrameCalls(stack) + [LiveCall(f.retAddr, Some(f.call))] else FrameCalls(stack)
  {
    assert (stack + [f])[..|stack|] == stack;
  }

  lemma SameCallsFrames(before: seq<Frame>, after: seq<Frame>)
    requires SameCalls(before, after)
    ensures FrameCalls(after) == FrameCalls(before)
  {
  }

  /** The highest frame returning to `a` is the last of the calls that return there. */
  lemma {:induction false} FoundAlike(stack: seq<Frame>, a: Addr, n: nat)
    requires a != 0 && n <= |stack|
    ensures var i, calls := FindFrame(stack, a, n), FrameCalls(stack[..n]);
      if i < 0 then forall m :: 0 <= m < |calls| ==> calls[m].ret != a
      else
        var below := FrameCalls(stack[..i]);
        && stack[i].FuncFrame? && |below| < |calls| && calls[..|below|] == below
        && calls[|below|] == LiveCall(a, Some(stack[i].call))
        && forall m :: |below| < m < |calls| ==> calls[m].ret != a
    decreases n
  {
    if n > 0 {
      assert stack[..n] == stack[..n - 1] + [stack[n - 1]];
      FrameCallsPushed(stack[..n - 1], stack[n - 1]);
      if stack[n - 1].ReturnAddr() != a {
        FoundAlike(stack, a, n - 1);
      }
    }
  }

  lemma {:induction false} CallOnStack(stack: seq<Frame>, m: nat)
    requires m < |FrameCalls(stack)|
    ensures exists i :: 0 <= i < |stack| && stack[i].FuncFrame? && FrameCalls(stack)[m].call == Some(stack[i].call) &&
                        |FrameCalls(stack[..i])| == m
    decreases |stack|
  {
    var init := stack[..|stack| - 1];
    if m < |FrameCalls(init)| {
      CallOnStack(init, m);
      var i :| 0 <= i < |init| && init[i].FuncFrame? && FrameCalls(init)[m].call == Some(init[i].call) &&
               |FrameCalls(init[..i])| == m;
      assert init[..i] == stack[..i] && stack[i] == init[i];
    } else {
      assert stack[|stack| - 1].FuncFrame? && |FrameCalls(stack[..|stack| - 1])| == m;
    }
  }

  /** No two calls on a stack have the same number. */
  lemma CallsDiffer(s: State, o: Options, k: nat, m: nat, n: nat)
    requires StateJoined(s, o) && k < |s.threads| && m < |FrameCalls(s.threads[k].callstack)|
    requires n < |FrameCalls(s.threads[k].callstack)|
    ensures FrameCalls(s.threads[k].callstack)[m].call == FrameCalls(s.threads[k].callstack)[n].call ==> m == n
  {
    CallOnStack(s.threads[k].callstack, m);
    CallOnStack(s.threads[k].callstack, n);
  }

  // --- one return ---

  /** The innermost live call. */
  function Innermost(w: World, tid: nat): LiveCall
    requires CallsOf(w, tid) != []
  {
    CallsOf(w, tid)[|CallsOf(w, tid)| - 1]
  }

  /** A trap at which frame `i` returns prints that frame's call, at its depth. */
  lemma ReturnPrints(s: State, o: Options, k: nat, addr: Addr, ret: Addr)
    requires Inv(s) && k < |s.threads| && s.threads[k].tid != 0 && s.threads[k].beingEnabled == None && addr != 0
    requires FindFrame(s.threads[k].callstack, addr, |s.threads[k].callstack|) >= 0
    ensures var stack := s.threads[k].callstack;
      var i, r := FindFrame(stack, addr, |stack|), HandleBreakpoint(s, o, k, addr, ret);
      && r.Ok? && r.value.calls == s.calls
      && r.value.printer == PrintRight(s.printer, o, s.threads[k].tid, i, stack[i].call)
  {
    var i := FindFrame(s.threads[k].callstack, addr, |s.threads[k].callstack|);
    BreakpointKeeps(s, o, k, addr, ret);
    ReturnedKeeps(s, o, k, i);
    PopAside(s, k, i + 1);
    PopAside(PopTo(s, k, i + 1).value, k, 0);
  }

  /** A heard return is logged as that of the highest frame that returns to the same address. */
  lemma {:induction false} ReturnShown(w: World, o: Options, tid: nat)
    requires Sane(w) && Possible(w, Return(tid)) && Heard(w.s, tid, Innermost(w, tid).ret)
    requires FindFrame(StackOf(w.s, tid), Innermost(w, tid).ret, |StackOf(w.s, tid)|) >= 0
    ensures Act(w, o, Return(tid)).Some?
    ensures var stack, s' := StackOf(w.s, tid), Act(w, o, Return(tid)).value.s;
      var f := FindFrame(stack, Innermost(w, tid).ret, |stack|);
      s'.printer == PrintRight(w.s.printer, o, tid, f, stack[f].call) && s'.calls == w.s.calls
  {
    hide Inv, HandleBreakpoint, CallsAfter;
    var r := Innermost(w, tid).ret;
    StopIsReal(w, Return(tid));
    TrapClassified(w.s, tid, r, 0);
    SlotOf(w.s, tid);
    var (s1, k) := Locate(w.s, tid).value;
    ReturnPrints(s1, o, k, r, 0);
  }

  /** The frame of thread `tid`'s innermost live call, if that call was pushed and is still there. */
  ghost predicate OwnFrame(w: World, tid: nat, i: nat) {
    var stack := StackOf(w.s, tid);
    && CallsOf(w, tid) != [] && i < |stack| && stack[i].FuncFrame?
    && Innermost(w, tid) == LiveCall(stack[i].retAddr, Some(stack[i].call))
  }

  /** The log shows the returning call's own return exactly when no frame above its own returns to the same address. */
  lemma {:induction false} OwnReturn(w: World, o: Options, tid: nat, i: nat)
    requires Sane(w) && StateJoined(w.s, o) && Possible(w, Return(tid)) && Heard(w.s, tid, Innermost(w, tid).ret)
    requires OwnFrame(w, tid, i)
    ensures Act(w, o, Return(tid)).Some?
    ensures var stack, p := StackOf(w.s, tid), w.s.printer;
      var f := FindFrame(stack, Innermost(w, tid).ret, |stack|);
      && i <= f && Act(w, o, Return(tid)).value.s.printer == PrintRight(p, o, tid, f, stack[f].call)
      && (Innermost(w, tid).call == Some(stack[f].call) <==>
          forall j :: i < j < |stack| ==> stack[j].ReturnAddr() != Innermost(w, tid).ret)
  {
    hide Inv, Act, Joined;
    var stack, r := StackOf(w.s, tid), Innermost(w, tid).ret;
    var f := FindFrame(stack, r, |stack|);
    assert stack[i].ReturnAddr() == r;
    ReturnShown(w, o, tid);
    FramesDiffer(w.s, o, tid, i, f);
  }

  lemma FramesDiffer(s: State, o: Options, tid: nat, i: nat, j: nat)
    requires StateJoined(s, o) && i < |StackOf(s, tid)| && j < |StackOf(s, tid)|
    ensures StackOf(s, tid)[i].call == StackOf(s, tid)[j].call ==> i == j
  {
  }

  // --- function frames and live calls, one for one ---

  ghost predicate Mirrors(s: State, stack: seq<Frame>, calls: seq<LiveCall>) {
    FrameCalls(stack) == calls && forall i :: 0 <= i < |calls| ==> !IsEntry(s, calls[i].ret)
  }

  /** In every thread the function frames are exactly the live calls. */
  ghost predicate Matched(w: World) {
    Sane(w) && forall t: nat :: t != 0 ==> Mirrors(w.s, StackOf(w.s, t), CallsOf(w, t))
  }

  lemma {:induction false} FramesEmbed(stack: seq<Frame>)
    ensures Embeds(Targets(FrameCalls(stack)), Rets(stack))
    ensures forall i :: 0 <= i < |stack| ==> Rets(stack)[i] == 0 || Rets(stack)[i] in Targets(FrameCalls(stack))
    decreases |stack|
  {
    if stack != [] {
      var init, top := stack[..|stack| - 1], stack[|stack| - 1];
      FramesEmbed(init);
      var xs, ys := Targets(FrameCalls(init)), Rets(init);
      assert Rets(stack) == ys + [top.ReturnAddr()];
      if top.FuncFrame? {
        assert Targets(FrameCalls(stack)) == xs + [top.retAddr];
        assert (xs + [top.retAddr])[..|xs|] == xs && (ys + [top.retAddr])[..|ys|] == ys;
      } else {
        EmbedsLonger(xs, ys, 0);
      }
    }
  }

  /** More than completeness. */
  lemma {:induction false} MatchedIsComplete(w: World)
    requires Matched(w)
    ensures Complete(w)
  {
    hide Inv, FrameCalls, Embeds;
    forall t: nat | t != 0 ensures Covers(w.s, RetsOf(w.s, t), LiveOf(w, t)) {
      var stack := StackOf(w.s, t);
      assert Mirrors(w.s, stack, CallsOf(w, t));
      FramesEmbed(stack);
      forall i | 0 <= i < |Rets(stack)| ensures !IsEntry(w.s, Rets(stack)[i]) {
        if Rets(stack)[i] != 0 {
          var m :| 0 <= m < |CallsOf(w, t)| && Targets(CallsOf(w, t))[m] == Rets(stack)[i];
        }
      }
    }
  }

  /** The exact condition: calls are heard and have room, returns are heard, nothing is left without returning, and no
      trap that is neither a call nor a return cuts or pushes a frame. */
  ghost predicate Straight(w: World, action: Action)
    requires Possible(w, action)
  {
    var stack := StackOf(w.s, action.tid);
    match action
    case Call(tid, sym, _) => Heard(w.s, tid, sym.enterAddr) && |stack| < MAX_CALLDEPTH - 1
    case Return(tid) => Heard(w.s, tid, LiveOf(w, tid)[|LiveOf(w, tid)| - 1])
    case Unwind(tid, keep) => keep == |LiveOf(w, tid)|
    case OtherStop(tid, stop) =>
      var e := Classify(ThreadOf(w.s, tid), stop);
      w.s.mode == -1 || SteppingBy(w.s, tid) || !e.BreakpointHit? ||
      (FindFrame(stack, e.addr, |stack|) < 0 && (IsEntry(w.s, e.addr) ==> |stack| >= MAX_CALLDEPTH - 1))
  }

  lemma {:induction false} CallMirrors(w: World, o: Options, tid: nat, sym: Symbol, ret: Addr)
    requires Matched(w) && Possible(w, Call(tid, sym, ret)) && Act(w, o, Call(tid, sym, ret)).Some?
    ensures var w', action := Act(w, o, Call(tid, sym, ret)).value, Call(tid, sym, ret);
      Mirrors(w.s, StackOf(w'.s, tid), CallsAfter(w, action)) <==> Straight(w, action)
  {
    hide Step, Inv, FrameCalls;
    var action, stack := Call(tid, sym, ret), StackOf(w.s, tid);
    var w' := Act(w, o, action).value;
    MatchedIsComplete(w);
    assert Covers(w.s, Rets(stack), LiveOf(w, tid)) && Mirrors(w.s, stack, CallsOf(w, tid));
    if w.s.text[sym.enterAddr] == TRAP {
      var stop := Trap(sym.enterAddr, ret);
      StopIsReal(w, action);
      TrapClassified(w.s, tid, sym.enterAddr, ret);
      if Heard(w.s, tid, sym.enterAddr) {
        HeardTrap(w.s, o, tid, stop);
        EntryIsNoReturn(w.s, stack, sym);
        FrameCallsPushed(stack, FuncFrame(w.s.symbols[FindSymbol(w.s.symbols, sym.enterAddr, 0)], ret, w.s.calls));
      } else {
        OtherwiseSame(w.s, o, tid, stop);
        SameCallsFrames(stack, StackOf(w'.s, tid));
      }
    }
  }

  lemma {:induction false} ReturnMirrors(w: World, o: Options, tid: nat)
    requires Matched(w) && Possible(w, Return(tid)) && Act(w, o, Return(tid)).Some?
    ensures var w', action := Act(w, o, Return(tid)).value, Return(tid);
      Mirrors(w.s, StackOf(w'.s, tid), CallsAfter(w, action)) <==> Straight(w, action)
  {
    hide Step, Inv, FrameCalls;
    var action, stack, calls := Return(tid), StackOf(w.s, tid), CallsOf(w, tid);
    var w', r := Act(w, o, action).value, Innermost(w, tid).ret;
    assert Mirrors(w.s, stack, calls);
    if w.s.text[r] == TRAP {
      StopIsReal(w, action);
      TrapClassified(w.s, tid, r, 0);
      if Heard(w.s, tid, r) {
        HeardTrap(w.s, o, tid, Trap(r, 0));
        LiveNonzero(w, action);
        InnermostFound(stack, calls);
      } else {
        OtherwiseSame(w.s, o, tid, Trap(r, 0));
        SameCallsFrames(stack, StackOf(w'.s, tid));
      }
    }
  }

  /** The highest frame returning to the innermost call's return address is that call's. */
  lemma {:induction false} InnermostFound(stack: seq<Frame>, calls: seq<LiveCall>)
    requires calls != [] && FrameCalls(stack) == calls && calls[|calls| - 1].ret != 0
    ensures var i, last := FindFrame(stack, calls[|calls| - 1].ret, |stack|), calls[|calls| - 1];
      && i >= 0 && stack[i].FuncFrame? && last.call == Some(stack[i].call)
      && FrameCalls(stack[..i]) == calls[..|calls| - 1]
  {
    hide FrameCalls;
    assert stack[..|stack|] == stack;
    FoundAlike(stack, calls[|calls| - 1].ret, |stack|);
  }

  lemma {:induction false} OtherMirrors(w: World, o: Options, tid: nat, stop: Stop)
    requires Matched(w) && Possible(w, OtherStop(tid, stop)) && Act(w, o, OtherStop(tid, stop)).Some?
    ensures var w', action := Act(w, o, OtherStop(tid, stop)).value, OtherStop(tid, stop);
      Mirrors(w.s, StackOf(w'.s, tid), CallsAfter(w, action)) <==> Straight(w, action)
  {
    hide Step, Inv, FrameCalls;
    var stack, e := StackOf(w.s, tid), Classify(ThreadOf(w.s, tid), stop);
    var w' := Act(w, o, OtherStop(tid, stop)).value;
    assert Mirrors(w.s, stack, CallsOf(w, tid));
    if w.s.mode == -1 || SteppingBy(w.s, tid) || !e.BreakpointHit? {
      OtherwiseSame(w.s, o, tid, stop);
      SameCallsFrames(stack, StackOf(w'.s, tid));
    } else {
      HeardTrap(w.s, o, tid, stop);
      EntryFound(w.s, e.addr);
      assert stack[..|stack|] == stack;
      FoundAlike(stack, e.addr, |stack|);
      var j := FindSymbol(w.s.symbols, e.addr, 0);
      if j < |w.s.symbols| {
        FrameCallsPushed(stack, FuncFrame(w.s.symbols[j], e.ret, w.s.calls));
      }
    }
  }

  lemma UnwindMirrors(w: World, tid: nat, keep: nat)
    requires Matched(w) && Possible(w, Unwind(tid, keep))
    ensures Mirrors(w.s, StackOf(w.s, tid), CallsAfter(w, Unwind(tid, keep))) <==> Straight(w, Unwind(tid, keep))
  {
    hide Sane;
    assert Mirrors(w.s, StackOf(w.s, tid), CallsOf(w, tid));
  }

  lemma SettlesMatched(w: World, w': World, tid: nat, calls: seq<LiveCall>)
    requires Matched(w) && Sane(w') && tid != 0 && w'.live == w.live[tid := calls]
    requires OnlyThread(w.s, w'.s, tid, StackOf(w'.s, tid))
    ensures Matched(w') <==> Mirrors(w.s, StackOf(w'.s, tid), calls)
  {
    hide Sane, Inv, FrameCalls;
    assert CallsOf(w', tid) == calls;
    forall t: nat | t != 0 && t != tid ensures Mirrors(w'.s, StackOf(w'.s, t), CallsOf(w', t)) {
      assert Mirrors(w.s, StackOf(w.s, t), CallsOf(w, t));
    }
  }

  /** Whatever a thread does, frames and live calls go on matching exactly when the condition holds. */
  lemma {:induction false} ActMatched(w: World, o: Options, action: Action)
    requires Matched(w) && Possible(w, action) && Act(w, o, action).Some?
    ensures Matched(Act(w, o, action).value) <==> Straight(w, action)
  {
    hide Matched, Mirrors, Straight, Sane;
    MatchedMeans(w);
    ActMoves(w, o, action);
    ActKeepsSane(w, o, action);
    SettlesMatched(w, Act(w, o, action).value, action.tid, CallsAfter(w, action));
    match action
    case Call(tid, sym, ret) => CallMirrors(w, o, tid, sym, ret);
    case Return(tid) => ReturnMirrors(w, o, tid);
    case Unwind(tid, keep) => UnwindMirrors(w, tid, keep);
    case OtherStop(tid, stop) => OtherMirrors(w, o, tid, stop);
  }

  lemma MatchedMeans(w: World)
    requires Matched(w)
    ensures Sane(w)
  {
  }

  // --- a return after a longjmp ---

  /** The highest frame with call `n`'s return address is that of the last call that has it. */
  lemma {:induction false} LastCallFound(stack: seq<Frame>, calls: seq<LiveCall>, n: nat) returns (m: nat)
    requires FrameCalls(stack) == calls && n < |calls| && calls[n].ret != 0
    ensures var f := FindFrame(stack, calls[n].ret, |stack|);
      f >= 0 && n <= m < |calls| && calls[m] == LiveCall(calls[n].ret, Some(stack[f].call))
    ensures forall j :: m < j < |calls| ==> calls[j].ret != calls[n].ret
  {
    hide FrameCalls;
    assert stack[..|stack|] == stack;
    FoundAlike(stack, calls[n].ret, |stack|);
    var f := FindFrame(stack, calls[n].ret, |stack|);
    assert f >= 0;
    m := |FrameCalls(stack[..f])|;
  }

  /** When several calls have been left at once, the next return to be heard is logged as that of the last call, left or
      not, that returns to its address: as its own exactly when no call that was left returns there. */
  lemma {:induction false} ReturnAfterUnwind(w: World, o: Options, tid: nat, keep: nat) returns (m: nat)
    requires Matched(w) && StateJoined(w.s, o) && tid != 0 && 0 < keep <= |CallsOf(w, tid)|
    requires Heard(w.s, tid, CallsOf(w, tid)[keep - 1].ret)
    ensures Act(w, o, Unwind(tid, keep)).Some?
    ensures var calls, w1 := CallsOf(w, tid), Act(w, o, Unwind(tid, keep)).value;
      && w1.s == w.s && CallsOf(w1, tid) == calls[..keep]
      && Possible(w1, Return(tid)) && Act(w1, o, Return(tid)).Some?
      && keep - 1 <= m < |calls| && calls[m].ret == calls[keep - 1].ret && calls[m].call.Some?
      && (forall n :: m < n < |calls| ==> calls[n].ret != calls[keep - 1].ret)
      && (exists depth :: Act(w1, o, Return(tid)).value.s.printer ==
                            PrintRight(w.s.printer, o, tid, depth, calls[m].call.value))
      && (calls[m].call == calls[keep - 1].call <==>
          forall n :: keep <= n < |calls| ==> calls[n].ret != calls[keep - 1].ret)
  {
    hide Inv, Joined, FrameCalls, Sane, StopOf, Step;
    MatchedMeans(w);
    var stack, calls := StackOf(w.s, tid), CallsOf(w, tid);
    assert Mirrors(w.s, stack, calls);
    LiveNonzero(w, Unwind(tid, keep));
    assert Targets(calls)[keep - 1] != 0;
    UnwindStays(w, o, Unwind(tid, keep));
    var w1 := Act(w, o, Unwind(tid, keep)).value;
    ActKeepsSane(w, o, Unwind(tid, keep));
    m := LastCallFound(stack, calls, keep - 1);
    ReturnShown(w1, o, tid);
    CallsDiffer(w.s, o, FindTid(w.s.threads, tid, 0), m, keep - 1);
  }

  // --- whole runs ---

  lemma StartsMatched(x: Setup)
    requires x.Proper()
    ensures Matched(World(Attach(x.symbols, x.text, x.pid), map[]))
  {
    hide Sane;
    var w := World(Attach(x.symbols, x.text, x.pid), map[]);
    StartsComplete(x);
    CompleteMeans(w);
    InsertSymbolsCounts(Unattached(x.symbols, x.text), x.symbols);
    forall t: nat | t != 0 ensures Mirrors(w.s, StackOf(w.s, t), CallsOf(w, t)) {
      assert StackOf(w.s, t) == [];
    }
  }

  /** Up to any moment of any run: function frames and live calls have matched throughout exactly when every action
      met the condition. */
  lemma {:induction false} RunMatched(x: Setup, worlds: seq<World>, actions: seq<Action>, n: nat)
    requires x.Proper() && Plays(x, worlds, actions) && n < |worlds|
    ensures (forall i :: 0 <= i <= n ==> Matched(worlds[i])) <==>
      (forall i :: 0 <= i < n ==> Possible(worlds[i], actions[i]) && Straight(worlds[i], actions[i]))
    decreases n
  {
    hide Matched, Straight;
    if n == 0 {
      StartsMatched(x);
    } else {
      RunMatched(x, worlds, actions, n - 1);
      assert Leads(worlds[n - 1], x.options, actions[n - 1], worlds[n - 1 + 1]);
      if Matched(worlds[n - 1]) {
        ActMatched(worlds[n - 1], x.options, actions[n - 1]);
      }
    }
  }

  lemma {:induction false} RunKeepsJoined(x: Setup, worlds: seq<World>, actions: seq<Action>, n: nat)
    requires x.Proper() && Plays(x, worlds, actions) && n < |worlds|
    ensures StateJoined(worlds[n].s, x.options)
    decreases n
  {
    hide Joined, Sane, Possible, Act;
    if n == 0 {
      RunJoins(x.symbols, x.text, x.pid, x.options, []);
    } else {
      RunKeepsJoined(x, worlds, actions, n - 1);
      RunSane(x, worlds, actions, n - 1);
      assert Leads(worlds[n - 1], x.options, actions[n - 1], worlds[n - 1 + 1]);
      ActKeepsJoined(worlds[n - 1], x.options, actions[n - 1]);
    }
  }

  lemma ActKeepsJoined(w: World, o: Options, action: Action)
    requires Sane(w) && StateJoined(w.s, o) && Possible(w, action) && Act(w, o, action).Some?
    ensures StateJoined(Act(w, o, action).value.s, o)
  {
    hide Joined, Step, CallsAfter;
    if StopOf(w, action).Some? {
      StopIsReal(w, action);
      StepKeepsJoined(w.s, o, action.tid, StopOf(w, action).value);
    }
  }

  // --- what the log tells ---

  /** A call that is heard is printed under its number. */
  lemma CallPrints(s: State, o: Options, k: nat, addr: Addr, ret: Addr)
    requires Inv(s) && k < |s.threads| && s.threads[k].tid != 0 && s.threads[k].beingEnabled == None && addr != 0
    requires FindFrame(s.threads[k].callstack, addr, |s.threads[k].callstack|) < 0
    requires FindSymbol(s.symbols, addr, 0) < |s.symbols|
    ensures var th, r := s.threads[k], HandleBreakpoint(s, o, k, addr, ret);
      && r.Ok? && r.value.calls == s.calls + 1
      && r.value.printer == PrintLeft(s.printer, o, th.tid, |th.callstack|, s.calls)
  {
    BreakpointKeeps(s, o, k, addr, ret);
    CalledPrints(s, o, k, s.symbols[FindSymbol(s.symbols, addr, 0)], ret);
  }

  lemma {:induction false} CallStepShown(s: State, o: Options, tid: nat, addr: Addr, ret: Addr)
    requires Inv(s) && RealStop(tid, Trap(addr, ret)) && Heard(s, tid, addr) && IsEntry(s, addr)
    requires FindFrame(StackOf(s, tid), addr, |StackOf(s, tid)|) < 0
    ensures match Step(s, o, tid, Trap(addr, ret))
      case Ok(Running(s')) =>
        s'.calls == s.calls + 1 && s'.printer == PrintLeft(s.printer, o, tid, |StackOf(s, tid)|, s.calls)
      case _ => true
  {
    hide Inv, HandleBreakpoint, PrintLeft;
    TrapClassified(s, tid, addr, ret);
    EntryFound(s, addr);
    if Locate(s, tid).Some? {
      SlotOf(s, tid);
      var (s1, k) := Locate(s, tid).value;
      CallPrints(s1, o, k, addr, ret);
    }
  }

  lemma {:induction false} CallShown(w: World, o: Options, tid: nat, sym: Symbol, ret: Addr)
    requires Sane(w) && Possible(w, Call(tid, sym, ret)) && Act(w, o, Call(tid, sym, ret)).Some?
    requires CallNumber(w.s, tid, sym).Some?
    ensures var w' := Act(w, o, Call(tid, sym, ret)).value;
      && CallsOf(w', tid) != [] && Innermost(w', tid) == LiveCall(ret, Some(w.s.calls)) && w'.s.calls == w.s.calls + 1
      && w'.s.printer == PrintLeft(w.s.printer, o, tid, |StackOf(w.s, tid)|, w.s.calls)
  {
    hide Inv, Step, PrintLeft;
    StopIsReal(w, Call(tid, sym, ret));
    var j :| 0 <= j < |w.s.symbols| && w.s.symbols[j] == sym;
    assert IsEntry(w.s, sym.enterAddr);
    CallStepShown(w.s, o, tid, sym.enterAddr, ret);
  }

  /** At most one item more, and no return unless `right`. */
  ghost predicate Adds(items: seq<Item>, items': seq<Item>, right: bool) {
    items' == items ||
    (|items'| == |items| + 1 && items'[..|items|] == items && (items'[|items|].Right? ==> right))
  }

  lemma PrintsAdd(p: PrinterState, o: Options, tid: nat, depth: nat, call: nat)
    ensures Adds(p.items, PrintLeft(p, o, tid, depth, call).items, false)
    ensures Adds(p.items, PrintRight(p, o, tid, depth, call).items, true)
    ensures Adds(p.items, PrintLine(p, o).items, false)
  {
  }

  lemma StrayAdds(s: State, o: Options, k: nat, addr: Addr, ret: Addr)
    requires Inv(s) && k < |s.threads| && s.threads[k].tid != 0 && addr != 0
    requires s.threads[k].beingEnabled.Some? || FindFrame(s.threads[k].callstack, addr, |s.threads[k].callstack|) < 0
    ensures var r := HandleBreakpoint(s, o, k, addr, ret);
      r.Ok? && Adds(s.printer.items, r.value.printer.items, false)
  {
    hide Inv, PrintLeft, PrintLine, Adds;
    var th, j := s.threads[k], FindSymbol(s.symbols, addr, 0);
    BreakpointKeeps(s, o, k, addr, ret);
    PrintsAdd(s.printer, o, th.tid, |th.callstack|, s.calls);
    if th.beingEnabled.Some? {
      NothingAdded(s.printer.items);
    } else if j < |s.symbols| {
      CalledPrints(s, o, k, s.symbols[j], ret);
    }
  }

  lemma NothingAdded(items: seq<Item>)
    ensures Adds(items, items, false) && Adds(items, items, true)
  {
  }

  /** Only a system call's return is logged as a return without being one of a traced function. */
  lemma {:induction false} HandleAdds(s: State, o: Options, k: nat, stop: Stop)
    requires Inv(s) && k < |s.threads| && s.threads[k].tid != 0 && RealStop(s.threads[k].tid, stop)
    requires var e, th := Classify(s.threads[k], stop), s.threads[k];
      e.BreakpointHit? ==> th.beingEnabled.Some? || FindFrame(th.callstack, e.addr, |th.callstack|) < 0
    ensures match Handle(s, o, k, Classify(s.threads[k], stop))
      case Ok(Running(s')) =>
        Adds(s.printer.items, s'.printer.items, Classify(s.threads[k], stop).Sysret?)
      case _ => true
  {
    hide Inv, HandleBreakpoint, HandleSyscall, Pop, PrintLeft, PrintRight, PrintLine, Adds;
    var th := s.threads[k];
    NothingAdded(s.printer.items);
    PrintsAdd(s.printer, o, th.tid, |th.callstack|, s.calls);
    match Classify(th, stop)
    case Syscall(sysnum) => SyscallChanges(s, o, k, sysnum);
    case Sysret(sysnum) =>
      SysretPopsItsCall(s, o, k, stop);
      PopAside(s, k, 0);
      PrintsAdd(s.printer, o, th.tid, |th.callstack| - 1, th.callstack[|th.callstack| - 1].call);
    case ExitEvent =>
    case Unknown =>
    case Signal(_, _) =>
    case BreakpointHit(addr, ret) => StrayAdds(s, o, k, addr, ret);
  }

  lemma {:induction false} OtherAdds(w: World, o: Options, tid: nat, stop: Stop)
    requires Sane(w) && Possible(w, OtherStop(tid, stop)) && Straight(w, OtherStop(tid, stop))
    requires Act(w, o, OtherStop(tid, stop)).Some?
    ensures Adds(w.s.printer.items, Act(w, o, OtherStop(tid, stop)).value.s.printer.items,
                 Classify(ThreadOf(w.s, tid), stop).Sysret?)
  {
    hide Inv, Handle, Adds, EnableAll, CallsAfter;
    SlotOf(w.s, tid);
    var (s1, k) := Locate(w.s, tid).value;
    if s1.mode == -1 {
      Enabled(s1);
      NothingAdded(w.s.printer.items);
    } else {
      HandleAdds(s1, o, k, stop);
    }
  }

  lemma Enabled(s: State)
    ensures EnableAll(s).printer == s.printer
  {
  }

  /** The log's answer to an action: a call's own line; a return under the number of the call that returned, on that
      call's line exactly when nothing was printed since, and there with the same thread and depth; and no other return
      but a system call's. */
  ghost predicate Tells(w: World, o: Options, action: Action, w': World)
    requires Possible(w, action)
  {
    var items, items' := w.s.printer.items, w'.s.printer.items;
    match action
    case Call(tid, _, _) =>
      && |items'| == |items| + 1 && items'[..|items|] == items
      && var x := items'[|items|];
      x.Left? && x.tid == tid && CallsOf(w', tid) != [] && Innermost(w', tid).call == Some(x.call)
    case Return(tid) =>
      && |items'| == |items| + 1 && items'[..|items|] == items
      && var x := items'[|items|];
      && x.Right? && x.tid == tid && Innermost(w, tid).call == Some(x.call)
      && (x.joined <==> items != [] && items[|items| - 1].Left? && items[|items| - 1].call == x.call)
      && (x.joined ==> items[|items| - 1].tid == tid && items[|items| - 1].depth == x.depth)
    case Unwind(_, _) => items' == items
    case OtherStop(tid, stop) => Adds(items, items', Classify(ThreadOf(w.s, tid), stop).Sysret?)
  }

  lemma {:induction false} StraightTells(w: World, o: Options, action: Action)
    requires Matched(w) && StateJoined(w.s, o) && !o.countOnly
    requires Possible(w, action) && Act(w, o, action).Some? && Straight(w, action)
    ensures Tells(w, o, action, Act(w, o, action).value)
  {
    hide Inv, Act, Joined, FrameCalls, CallsAfter;
    MatchedMeans(w);
    var tid, stack := action.tid, StackOf(w.s, action.tid);
    assert Mirrors(w.s, stack, CallsOf(w, tid));
    match action
    case Call(_, sym, ret) =>
      MatchedIsComplete(w);
      assert Covers(w.s, Rets(stack), LiveOf(w, tid));
      EntryIsNoReturn(w.s, stack, sym);
      CallShown(w, o, tid, sym, ret);
    case Return(_) =>
      LiveNonzero(w, action);
      InnermostFound(stack, CallsOf(w, tid));
      ReturnShown(w, o, tid);
      ActKeepsJoined(w, o, action);
      LastJoined(Act(w, o, action).value.s, o);
    case Unwind(_, _) => UnwindStays(w, o, action);
    case OtherStop(_, stop) => OtherAdds(w, o, tid, stop);
  }

  lemma UnwindStays(w: World, o: Options, action: Action)
    requires action.Unwind? && Possible(w, action)
    ensures Act(w, o, action).Some? && Act(w, o, action).value.s == w.s
    ensures CallsOf(Act(w, o, action).value, action.tid) == CallsOf(w, action.tid)[..action.keep]
  {
  }

  lemma LastJoined(s: State, o: Options)
    requires StateJoined(s, o) && s.printer.items != []
    ensures JoinOk(s.printer.items, |s.printer.items| - 1)
  {
  }

  /** An orderly action that leaves no call without returning, and no trap that is neither a call nor a return cuts or
      pushes a frame. */
  ghost predicate Direct(w: World, action: Action) {
    Possible(w, action) && Orderly(w, action) && (action.Unwind? || action.OtherStop? ==> Straight(w, action))
  }

  /** In every run of such actions the function frames are the live calls throughout, and the log tells each call and
      each return for what it is. */
  lemma {:induction false} RunTells(x: Setup, worlds: seq<World>, actions: seq<Action>, n: nat)
    requires x.Proper() && Plays(x, worlds, actions) && n < |worlds| && !x.options.countOnly
    requires forall i :: 0 <= i < n ==> Direct(worlds[i], actions[i])
    ensures Matched(worlds[n])
    ensures forall i :: 0 <= i < n ==>
      Possible(worlds[i], actions[i]) && Tells(worlds[i], x.options, actions[i], worlds[i + 1])
    decreases n
  {
    hide Matched, Tells, Noticed, Complete, Straight, Follows, Joined;
    if n == 0 {
      StartsMatched(x);
    } else {
      RunTells(x, worlds, actions, n - 1);
      RunOrderly(x, worlds, actions, n);
      RunKeepsJoined(x, worlds, actions, n - 1);
      var w, action := worlds[n - 1], actions[n - 1];
      assert Leads(w, x.options, action, worlds[n - 1 + 1]);
      NoticedStraight(w, action);
      ActMatched(w, x.options, action);
      StraightTells(w, x.options, action);
    }
  }

  lemma NoticedStraight(w: World, action: Action)
    requires Direct(w, action) && Noticed(w, action)
    ensures Straight(w, action)
  {
  }
}
