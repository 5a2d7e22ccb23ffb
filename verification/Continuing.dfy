/** How a stop lets the tracee go on: over a lifted breakpoint, from a system call's entry to its exit, or for good. */
module Continuing {
  import opened Base
  import opened Memory
  import opened Tracer
  import opened RefCounts
  import opened TextSafety
  import opened Completeness

  // --- for good ---

  /** The user has interrupted the tracer, and the thread has got the signal that stops it. */
  predicate Interrupted(stop: Stop) {
    stop.Stopped? && stop.signum == SIGSTOP && stop.exiting
  }

  /** Exactly an interrupted tracee is let go in a stop, and then with its original text. */
  lemma {:induction false} LetGo(s: State, original: Text, o: Options, tid: nat, stop: Stop)
    requires TextSafe(s, original) && Inv(s) && RealStop(tid, stop) && stop.Stopped?
    ensures Step(s, o, tid, stop).Ok?
    ensures Step(s, o, tid, stop).value.Gone? <==> Interrupted(stop) && Locate(s, tid).Some?
    ensures var n := Step(s, o, tid, stop).value; n.Gone? ==> n.s.text == original && n.s.mode == 0
  {
    hide Inv, TextSafe, DisableAll, HandleBreakpoint, HandleSyscall, HandleSysret;
    StepKeeps(s, o, tid, stop);
    SafeMode(s, original);
    if Locate(s, tid).Some? {
      LocateKeeps(s, tid);
      LocateSafe(s, original, tid);
      DetachRestores(Locate(s, tid).value.0, original);
      SafeMode(Locate(s, tid).value.0, original);
      DisabledMode(Locate(s, tid).value.0);
    }
  }

  lemma SafeMode(s: State, original: Text)
    requires TextSafe(s, original)
    ensures s.mode == 1
  {
  }

  lemma DisabledMode(s: State)
    ensures DisableAll(s).mode == 0
  {
  }

  /** Stop number `i` is a stopped thread's and ends the session. */
  ghost predicate EndsAt(start: State, o: Options, inputs: seq<Input>, i: nat)
    requires i < |inputs|
  {
    && inputs[i].stop.Stopped?
    && Run(start, o, inputs[..i]).Ok? && Run(start, o, inputs[..i]).value.Running?
    && Run(start, o, inputs[..i + 1]).Ok? && Run(start, o, inputs[..i + 1]).value.Gone?
  }

  /** A session ended by a stop leaves the original text, if no stop before had handed back a breakpoint that must not
      go back in; and it was ended by an interrupt. */
  lemma {:induction false} RunLetsGo(symbols: seq<Symbol>, original: Text, pid: nat, o: Options, inputs: seq<Input>,
                                     i: nat)
    requires pid != 0 && RealStops(inputs) && i < |inputs|
    requires var start := Attach(symbols, original, pid);
      EndsAt(start, o, inputs, i) && forall j :: 1 <= j < i ==> !BadStop(start, original, o, inputs, j)
    ensures Interrupted(inputs[i].stop)
    ensures Run(Attach(symbols, original, pid), o, inputs[..i + 1]).value.s.text == original
  {
    hide Step, Run, Attach, BadStop, Inv;
    var start := Attach(symbols, original, pid);
    RunOneMore(start, o, inputs, i);
    if i == 0 {
      RunNothing(start, o);
      assert inputs[..0] == [];
      FirstGoesOn(symbols, original, pid, o, inputs[0]);
    } else {
      RunSafeExact(symbols, original, pid, o, inputs, i);
      RunKeeps(symbols, original, pid, o, inputs[..i]);
      assert SafeAfter(start, original, o, inputs[..i]);
      LetGo(Run(start, o, inputs[..i]).value.s, original, o, inputs[i].tid, inputs[i].stop);
    }
  }

  lemma FirstGoesOn(symbols: seq<Symbol>, original: Text, pid: nat, o: Options, input: Input)
    requires pid != 0 && RealStop(input.tid, input.stop)
    ensures match Step(Attach(symbols, original, pid), o, input.tid, input.stop)
      case Ok(n) => !n.Gone?
      case Aborted => false
  {
    hide Step;
    AttachInv(symbols, original, pid);
    InsertSymbolsQuiet(Unattached(symbols, original), symbols);
    FirstStep(Attach(symbols, original, pid), original, o, input.tid, input.stop);
  }

  /** How any stop after the first leaves the session: let go when the process has ended or an interrupted thread stops,
      quit when there is no room for the thread or waitpid reports something else, and else going on. */
  lemma {:induction false} HowItEnds(s: State, o: Options, tid: nat, stop: Stop)
    requires Inv(s) && RealStop(tid, stop) && s.mode != -1
    ensures Step(s, o, tid, stop).Ok?
    ensures Step(s, o, tid, stop).value.Quit? <==> Locate(s, tid) == None || stop == Other
    ensures Step(s, o, tid, stop).value.Gone? <==>
      Locate(s, tid).Some? && (stop == Exited || stop == Killed || Interrupted(stop))
    ensures Step(s, o, tid, stop).value.Running? <==> Locate(s, tid).Some? && stop.Stopped? && !Interrupted(stop)
  {
    hide Inv, DisableAll, HandleBreakpoint, HandleSyscall, HandleSysret;
    StepKeeps(s, o, tid, stop);
    if Locate(s, tid).Some? {
      SlotOf(s, tid);
      EndsAsClassified(Locate(s, tid).value.0, o, Locate(s, tid).value.1, stop);
    }
  }

  lemma EndsAsClassified(s: State, o: Options, k: nat, stop: Stop)
    requires k < |s.threads| && (Classify(s.threads[k], stop).Sysret? ==> s.threads[k].callstack != [])
    requires Handle(s, o, k, Classify(s.threads[k], stop)).Ok?
    ensures var n := Handle(s, o, k, Classify(s.threads[k], stop)).value;
      && (n.Quit? <==> stop == Other) && (n.Gone? <==> stop == Exited || stop == Killed || Interrupted(stop))
  {
  }

  /** The end of the process is logged as a line, and nothing else changes. */
  lemma {:induction false} EndIsLogged(s: State, o: Options, tid: nat, stop: Stop)
    requires Inv(s) && RealStop(tid, stop) && s.mode != -1 && Known(s, tid) && stop in {Exited, Killed}
    ensures Step(s, o, tid, stop) == Ok(Gone(WithPrinter(s, PrintLine(s.printer, o))))
    ensures !o.countOnly ==>
      PrintLine(s.printer, o).items == s.printer.items + [Line(s.printer.currentPid != 0)]
  {
  }

  // --- and back again ---

  /** Breakpoints that had all been lifted come back with the first system call other than clone. */
  lemma {:induction false} ComesBack(s: State, original: Text, o: Options, k: nat, n: int)
    requires TextSafe(s, original) && k < |s.threads|
    requires forall j :: 0 <= j < |s.threads| ==> s.threads[j].beingEnabled == None
    ensures var s' := HandleSyscall(DisableAll(s), o, k, n);
      if n == SYS_CLONE then s'.text == original && s'.mode == 0 else TextExact(s', original)
  {
    hide TextSafe, PushSyscall, PrintLeft, EnableAll, DisableAll;
    var t := DisableAll(s);
    DetachRestores(s, original);
    LiftedAll(s, original);
    RearmsAll(s, original);
    EntryText(t, o, k, n);
    var s' := HandleSyscall(t, o, k, n);
    if n != SYS_CLONE {
      SameSafe(EnableAll(t), s', original);
      SafeIsExact(s', original);
    }
  }

  lemma LiftedAll(s: State, original: Text)
    requires TextSafe(s, original)
    ensures var t := DisableAll(s); t.mode == 0 && t.threads == s.threads && t.pid == s.pid
  {
  }

  lemma RearmsAll(s: State, original: Text)
    requires TextSafe(s, original) && forall j :: 0 <= j < |s.threads| ==> s.threads[j].beingEnabled == None
    ensures TextSafe(EnableAll(DisableAll(s)), original)
  {
    var s' := EnableAll(DisableAll(s));
    DetachRestores(s, original);
    forall a: Addr ensures ByteSafe(s', original, a) {
      assert ByteSafe(s, original, a);
    }
  }

  /** What a system call's entry does to the text. */
  lemma EntryText(s: State, o: Options, k: nat, n: int)
    requires k < |s.threads| && s.mode == 0
    ensures var s', t := HandleSyscall(s, o, k, n), EnableAll(s);
      && |s'.threads| == |s.threads|
      && (forall j :: 0 <= j < |s.threads| ==> s'.threads[j].beingEnabled == s.threads[j].beingEnabled)
      && (if n == SYS_CLONE then s'.text == s.text && s'.mode == 0
          else s'.text == t.text && s'.breakpoints == t.breakpoints && s'.mode == t.mode && s'.pid == t.pid)
      && |t.threads| == |s.threads| && t.threads == s.threads
  {
    hide PrintLeft;
    var p := if o.showSyscalls
             then PrintLeft(s.printer, o, s.threads[k].tid, |s.threads[k].callstack|, s.calls) else s.printer;
    AllAside(s, p);
  }

  // --- over a lifted breakpoint ---

  /** Thread `k` can go on at `addr`: the original instruction is there, and if the breakpoint is still wanted the
      thread is to step over it. */
  ghost predicate CanGoOn(s: State, original: Text, k: nat, addr: Addr) {
    && k < |s.threads| && s.text[addr] == original[addr]
    && s.threads[k].beingEnabled == if Active(s, addr) then Some(addr) else None
  }

  lemma ContinuesOver(s: State, original: Text, k: nat, addr: Addr)
    requires TextSafe(s, original) && k < |s.threads| && addr in s.breakpoints && s.threads[k].beingEnabled == None
    ensures ContinueAfter(s, k, addr).Ok? && CanGoOn(ContinueAfter(s, k, addr).value, original, k, addr)
  {
    assert ByteSafe(s, original, addr);
  }

  /** After every trap at a traced entry or a frame's return address the thread can go on from there. */
  lemma {:induction false} TrapContinues(s: State, original: Text, o: Options, k: nat, addr: Addr, ret: Addr)
    requires TextSafe(s, original) && Inv(s) && k < |s.threads| && s.threads[k].tid != 0 && addr != 0
    requires s.threads[k].beingEnabled == None
    requires FindFrame(s.threads[k].callstack, addr, |s.threads[k].callstack|) >= 0 || IsEntry(s, addr)
    ensures var r := HandleBreakpoint(s, o, k, addr, ret); r.Ok? && CanGoOn(r.value, original, k, addr)
  {
    hide TextSafe, Inv, Returned, Called, ContinueAfter, CanGoOn;
    var i, j := FindFrame(s.threads[k].callstack, addr, |s.threads[k].callstack|), FindSymbol(s.symbols, addr, 0);
    EntryFound(s, addr);
    if i >= 0 {
      FrameInDictionary(s, k, i);
      ReturnedKeeps(s, o, k, i);
      ReturnedSafe(s, original, o, k, i);
      ContinuesOver(Returned(s, o, k, i).value, original, k, addr);
    } else {
      CalledKeeps(s, o, k, s.symbols[j], ret);
      CalledSafe(s, original, o, k, s.symbols[j], ret);
      SymbolInDictionary(Called(s, o, k, s.symbols[j], ret), j);
      ContinuesOver(Called(s, o, k, s.symbols[j], ret), original, k, addr);
    }
  }

  /** The same for a stop of any thread, known or new. */
  lemma {:induction false} StopContinues(s: State, original: Text, o: Options, tid: nat, stop: Stop)
    requires TextSafe(s, original) && Inv(s) && RealStop(tid, stop) && Locate(s, tid).Some? && !SteppingBy(s, tid)
    requires var e := Classify(ThreadOf(s, tid), stop);
      e.BreakpointHit? && (FindFrame(StackOf(s, tid), e.addr, |StackOf(s, tid)|) >= 0 || IsEntry(s, e.addr))
    ensures Step(s, o, tid, stop).Ok? && Step(s, o, tid, stop).value.Running?
    ensures CanGoOn(Step(s, o, tid, stop).value.s, original, Locate(s, tid).value.1,
                    Classify(ThreadOf(s, tid), stop).addr)
  {
    hide TextSafe, Inv, HandleBreakpoint, CanGoOn;
    SlotOf(s, tid);
    LocateSafe(s, original, tid);
    var (s1, k) := Locate(s, tid).value;
    var e := Classify(ThreadOf(s, tid), stop);
    SafeMode(s1, original);
    TrapContinues(s1, original, o, k, e.addr, e.ret);
  }

  // --- from a system call's entry to its exit ---

  /** A stop in system call `n`, at its entry or its exit. */
  predicate InSyscall(stop: Stop, n: int) {
    stop.Stopped? && stop.signum == SIGTRAP && stop.sysnum == n
  }

  predicate Known(s: State, tid: nat) {
    s.mode != -1 && FindTid(s.threads, tid, 0) < |s.threads|
  }

  /** Only system call frames that are to be popped are pushed: execve's is not, nor one for which there is no room. */
  predicate Bracketed(s: State, tid: nat, n: int) {
    n != SYS_EXECVE && |StackOf(s, tid)| < MAX_CALLDEPTH - 1
  }

  lemma {:induction false} EntrySlot(s: State, o: Options, k: nat, n: int)
    requires Inv(s) && k < |s.threads| && s.threads[k].tid != 0 && n >= 0 && s.mode != -1
    ensures var s', th := HandleSyscall(s, o, k, n), s.threads[k];
      && Inv(s') && s'.mode != -1 && |s'.threads| == |s.threads| && s'.symbols == s.symbols
      && s'.threads[k].beingEnabled == th.beingEnabled && s'.threads[k].tid == th.tid
      && s'.threads[k].callstack ==
           (if n != SYS_EXECVE && |th.callstack| < MAX_CALLDEPTH - 1 then th.callstack + [SyscallFrame(n, s.calls)]
            else th.callstack)
      && (forall j :: 0 <= j < |s.threads| && j != k ==> s'.threads[j] == s.threads[j])
      && (forall a: Addr :: Count(s', a) == Count(s, a))
  {
    hide Inv;
    SyscallKeeps(s, o, k, n);
    DepthBounded(s, k);
  }

  /** The entry: one frame on top, if there is to be one, and no breakpoint counted or uncounted. */
  lemma {:induction false} Enters(s: State, o: Options, tid: nat, stop: Stop, n: int)
    requires Inv(s) && Known(s, tid) && tid != 0 && Classify(ThreadOf(s, tid), stop) == Syscall(n)
    ensures Step(s, o, tid, stop).Ok? && Step(s, o, tid, stop).value.Running?
    ensures var s' := Step(s, o, tid, stop).value.s;
      && Inv(s') && Known(s', tid) && (forall a: Addr :: Count(s', a) == Count(s, a))
      && StackOf(s', tid) ==
           if Bracketed(s, tid, n) then StackOf(s, tid) + [SyscallFrame(n, s.calls)] else StackOf(s, tid)
  {
    hide Inv, HandleSyscall, Count;
    var k := FindTid(s.threads, tid, 0);
    EntrySlot(s, o, k, n);
    var s' := HandleSyscall(s, o, k, n);
    Distinct(s');
    FirstIsOnly(s'.threads, tid, k);
  }

  /** The exit: the frame on top is gone, and no breakpoint counted or uncounted. */
  lemma {:induction false} Leaves(s: State, o: Options, tid: nat, stop: Stop, n: int)
    requires Inv(s) && Known(s, tid) && tid != 0 && Classify(ThreadOf(s, tid), stop) == Sysret(n)
    ensures Step(s, o, tid, stop).Ok? && Step(s, o, tid, stop).value.Running?
    ensures var s', stack := Step(s, o, tid, stop).value.s, StackOf(s, tid);
      && Inv(s') && Known(s', tid) && (forall a: Addr :: Count(s', a) == Count(s, a))
      && stack != [] && StackOf(s', tid) == stack[..|stack| - 1]
  {
    hide Inv, HandleSysret;
    var k := FindTid(s.threads, tid, 0);
    SysretPopsItsCall(s, o, k, stop);
    SysretKeeps(s, o, k);
    SysretMoves(s, o, k, stop);
    ExitMode(s, o, k);
    var s' := HandleSysret(s, o, k).value;
    Distinct(s');
    FirstIsOnly(s'.threads, tid, k);
  }

  lemma ExitMode(s: State, o: Options, k: nat)
    requires k < |s.threads| && s.threads[k].callstack != [] && HandleSysret(s, o, k).Ok?
    ensures HandleSysret(s, o, k).value.mode == s.mode
  {
  }

  lemma {:induction false} TrapMode(s: State, o: Options, k: nat, addr: Addr, ret: Addr)
    requires k < |s.threads| && HandleBreakpoint(s, o, k, addr, ret).Ok?
    ensures HandleBreakpoint(s, o, k, addr, ret).value.mode == s.mode
  {
    var th := s.threads[k];
    var i := FindFrame(th.callstack, addr, |th.callstack|);
    if th.beingEnabled == None && i >= 0 {
      PopAside(s, k, i + 1);
      PopAside(PopTo(s, k, i + 1).value, k, 0);
    }
  }

  /** A known thread stays known. */
  lemma {:induction false} HandleKnows(s: State, o: Options, k: nat, stop: Stop)
    requires Inv(s) && k < |s.threads| && s.threads[k].tid != 0 && RealStop(s.threads[k].tid, stop) && s.mode != -1
    ensures match Handle(s, o, k, Classify(s.threads[k], stop))
      case Ok(Running(s')) => OnlySlot(s, s', k) && s'.mode != -1
      case _ => true
  {
    hide Inv, HandleBreakpoint, HandleSyscall, HandleSysret;
    var e := Classify(s.threads[k], stop);
    if e.BreakpointHit? {
      if s.threads[k].beingEnabled == None {
        TrapMoves(s, o, k, e.addr, e.ret);
      } else {
        QuietMoves(s, o, k, stop);
      }
      if HandleBreakpoint(s, o, k, e.addr, e.ret).Ok? {
        TrapMode(s, o, k, e.addr, e.ret);
      }
    } else {
      QuietMoves(s, o, k, stop);
      if e.Syscall? {
        EntrySlot(s, o, k, e.sysnum);
      } else if e.Sysret? && HandleSysret(s, o, k).Ok? {
        SysretPopsItsCall(s, o, k, stop);
        ExitMode(s, o, k);
      }
    }
  }

  /** Another thread's stop, or a signal of its own. */
  predicate Harmless(x: Input, tid: nat) {
    x.tid != tid || (x.stop.Stopped? && x.stop.signum != SIGTRAP)
  }

  lemma {:induction false} SignalStays(s: State, o: Options, tid: nat, stop: Stop)
    requires Inv(s) && Known(s, tid) && tid != 0 && Harmless(Input(tid, stop), tid)
    ensures match Step(s, o, tid, stop)
      case Ok(Running(s')) => Inv(s') && Known(s', tid) && StackOf(s', tid) == StackOf(s, tid)
      case _ => true
  {
    SameCounts(s, WithPrinter(s, PrintLine(s.printer, o)));
  }

  /** Neither touches the thread's stack. */
  lemma {:induction false} HarmlessStays(s: State, o: Options, tid: nat, x: Input)
    requires Inv(s) && Known(s, tid) && tid != 0 && Harmless(x, tid) && RealStop(x.tid, x.stop)
    ensures match Step(s, o, x.tid, x.stop)
      case Ok(Running(s')) => Inv(s') && Known(s', tid) && StackOf(s', tid) == StackOf(s, tid)
      case _ => true
  {
    hide Inv, Handle;
    if x.tid == tid {
      SignalStays(s, o, tid, x.stop);
    } else if Locate(s, x.tid).Some? && Step(s, o, x.tid, x.stop).Ok? && Step(s, o, x.tid, x.stop).value.Running? {
      SlotOf(s, x.tid);
      var (s1, k) := Locate(s, x.tid).value;
      var s' := Step(s, o, x.tid, x.stop).value.s;
      HandleKnows(s1, o, k, x.stop);
      var f := FindTid(s.threads, tid, 0);
      assert s1.threads[f] == s.threads[f] && f != k;
      Distinct(s');
      FirstIsOnly(s'.threads, tid, f);
    }
  }

  predicate AllHarmless(inputs: seq<Input>, tid: nat) {
    forall i :: 0 <= i < |inputs| ==> Harmless(inputs[i], tid)
  }

  lemma {:induction false} AllHarmlessStay(s: State, o: Options, tid: nat, inputs: seq<Input>)
    requires Inv(s) && Known(s, tid) && tid != 0 && RealStops(inputs) && AllHarmless(inputs, tid)
    ensures match Run(s, o, inputs)
      case Ok(Running(s')) => Inv(s') && Known(s', tid) && StackOf(s', tid) == StackOf(s, tid)
      case _ => true
    decreases |inputs|
  {
    hide Inv, Step, Known, StackOf, Harmless;
    if inputs != [] {
      var before, last := inputs[..|inputs| - 1], inputs[|inputs| - 1];
      AllHarmlessStay(s, o, tid, before);
      var r := Run(s, o, before);
      if r.Ok? && r.value.Running? {
        assert Harmless(inputs[|inputs| - 1], tid) && RealStop(last.tid, last.stop);
        HarmlessStays(r.value.s, o, tid, last);
      }
    }
  }

  /** Whatever other threads do in between, and whatever signals arrive: after a system call's entry, the thread's next
      stop in it is its exit exactly when the entry was pushed, and else is taken for another entry. The exit gives the
      thread its stack back, and neither of the two changes a breakpoint's count. */
  lemma {:induction false} EntryThenExit(s: State, o: Options, tid: nat, entry: Stop, between: seq<Input>, exit: Stop,
                                         n: int)
    returns (s1: State)
    requires Inv(s) && Known(s, tid) && tid != 0 && Classify(ThreadOf(s, tid), entry) == Syscall(n)
    requires RealStops(between) && AllHarmless(between, tid) && InSyscall(exit, n)
    ensures Step(s, o, tid, entry) == Ok(Running(s1)) && forall a: Addr :: Count(s1, a) == Count(s, a)
    ensures match Run(s1, o, between)
      case Ok(Running(s2)) =>
        if Bracketed(s, tid, n) then
          && Classify(ThreadOf(s2, tid), exit) == Sysret(n)
          && match Step(s2, o, tid, exit)
             case Ok(Running(s3)) =>
               StackOf(s3, tid) == StackOf(s, tid) && forall a: Addr :: Count(s3, a) == Count(s2, a)
             case _ => false
        else
          Classify(ThreadOf(s2, tid), exit) == Syscall(n)
      case _ => true
  {
    hide Inv, Step, Count, Known, Run;
    Enters(s, o, tid, entry, n);
    s1 := Step(s, o, tid, entry).value.s;
    AllHarmlessStay(s1, o, tid, between);
    var r := Run(s1, o, between);
    if r.Ok? && r.value.Running? {
      ExitSeen(StackOf(s, tid), ThreadOf(r.value.s, tid), exit, n, s.calls, Bracketed(s, tid, n));
      if Bracketed(s, tid, n) {
        Leaves(r.value.s, o, tid, exit, n);
      }
    }
  }

  lemma ExitSeen(stack: seq<Frame>, th: ThreadState, exit: Stop, n: int, call: nat, pushed: bool)
    requires InSyscall(exit, n) && n >= 0
    requires th.callstack == if pushed then stack + [SyscallFrame(n, call)] else stack
    requires stack == [] || stack[|stack| - 1].FuncFrame? || stack[|stack| - 1].sysnum != n
    ensures Classify(th, exit) == if pushed then Sysret(n) else Syscall(n)
  {
  }
}
