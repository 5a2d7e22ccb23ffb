/** Reference counts and shadow stacks over whole runs: no assertion of the tracer ever fails. */
module RefCounts {
  import opened Base
  import opened Memory
  import opened Tracer

  // --- counting ---

  function SymbolsAt(symbols: seq<Symbol>, a: Addr): nat
    decreases |symbols|
  {
    if symbols == [] then 0
    else (if symbols[0].enterAddr == a then 1 else 0) + SymbolsAt(symbols[1..], a)
  }

  function Returning(f: Frame, a: Addr): nat {
    if f.FuncFrame? && f.retAddr == a then 1 else 0
  }

  function StackReturning(stack: seq<Frame>, a: Addr): nat
    decreases |stack|
  {
    if stack == [] then 0
    else StackReturning(stack[..|stack| - 1], a) + Returning(stack[|stack| - 1], a)
  }

  /** The function frames, in all call stacks, that return to `a`. */
  function FramesReturning(threads: seq<ThreadState>, a: Addr): nat
    decreases |threads|
  {
    if threads == [] then 0
    else StackReturning(threads[0].callstack, a) + FramesReturning(threads[1..], a)
  }

  lemma {:induction false} FramesAfterUpdate(threads: seq<ThreadState>, k: nat, th: ThreadState, a: Addr)
    requires k < |threads|
    ensures FramesReturning(threads[k := th], a) ==
      FramesReturning(threads, a) - StackReturning(threads[k].callstack, a) + StackReturning(th.callstack, a)
    decreases |threads|
  {
    if k == 0 {
      assert threads[0 := th][1..] == threads[1..];
    } else {
      assert threads[k := th][1..] == threads[1..][k - 1 := th];
      FramesAfterUpdate(threads[1..], k - 1, th, a);
    }
  }

  lemma StackWithin(threads: seq<ThreadState>, k: nat, a: Addr)
    requires k < |threads|
    ensures StackReturning(threads[k].callstack, a) <= FramesReturning(threads, a)
    decreases |threads|
  {
    if k > 0 {
      StackWithin(threads[1..], k - 1, a);
    }
  }

  lemma FrameCounted(stack: seq<Frame>, i: nat)
    requires i < |stack| && stack[i].FuncFrame?
    ensures StackReturning(stack, stack[i].retAddr) >= 1
    decreases |stack|
  {
    if i < |stack| - 1 {
      assert stack[..|stack| - 1][i] == stack[i];
      FrameCounted(stack[..|stack| - 1], i);
    }
  }

  lemma SymbolCounted(symbols: seq<Symbol>, j: nat)
    requires j < |symbols|
    ensures SymbolsAt(symbols, symbols[j].enterAddr) >= 1
    decreases |symbols|
  {
    if j > 0 {
      assert symbols[1..][j - 1] == symbols[j];
      SymbolCounted(symbols[1..], j - 1);
    }
  }

  // --- the invariant ---

  function Count(s: State, a: Addr): int {
    if a in s.breakpoints then s.breakpoints[a].enabled else 0
  }

  function References(s: State, a: Addr): nat {
    SymbolsAt(s.symbols, a) + FramesReturning(s.threads, a)
  }

  /** A breakpoint's count is the number of kept symbols entered there plus the number of frames returning there. */
  ghost predicate Conserved(s: State) {
    && (forall a: Addr :: Count(s, a) == References(s, a))
    && (forall k :: 0 <= k < |s.threads| && s.threads[k].beingEnabled.Some? ==>
          s.threads[k].beingEnabled.value in s.breakpoints)
  }

  predicate FrameOk(f: Frame) {
    f.SyscallFrame? ==> f.sysnum >= 0 && f.sysnum != SYS_EXECVE
  }

  predicate ThreadOk(th: ThreadState) {
    && |th.callstack| <= MAX_CALLDEPTH - 1
    && (forall i :: 0 <= i < |th.callstack| ==> FrameOk(th.callstack[i]))
    && (th.tid == 0 ==> th == FreeThread)
  }

  ghost predicate TidsDistinct(threads: seq<ThreadState>) {
    forall j, k :: 0 <= j < k < |threads| && threads[j].tid != 0 ==> threads[j].tid != threads[k].tid
  }

  /** A live thread is in the first slot that holds its id, and in no other. */
  lemma FirstIsOnly(threads: seq<ThreadState>, tid: nat, k: nat)
    requires TidsDistinct(threads) && tid != 0 && k < |threads| && threads[k].tid == tid
    ensures FindTid(threads, tid, 0) == k
  {
    var f := FindTid(threads, tid, 0);
    assert f <= k;
  }

  ghost predicate StacksOk(s: State) {
    && |s.threads| == MAX_THREADS_TRACED
    && TidsDistinct(s.threads)
    && (forall k :: 0 <= k < |s.threads| ==> ThreadOk(s.threads[k]))
  }

  ghost predicate Inv(s: State) {
    Conserved(s) && StacksOk(s)
  }

  // --- primitive changes ---

  lemma SameCounts(s: State, s': State)
    requires Conserved(s) && s'.symbols == s.symbols && s'.threads == s.threads
    requires s'.breakpoints.Keys == s.breakpoints.Keys
    requires forall a :: a in s.breakpoints ==> s'.breakpoints[a].enabled == s.breakpoints[a].enabled
    ensures Conserved(s')
  {
    forall a: Addr ensures Count(s', a) == References(s', a) {
      assert Count(s, a) == References(s, a);
    }
  }

  lemma InsertCounts(s: State, a: Addr)
    ensures forall b: Addr :: Count(Insert(s, a), b) == Count(s, b) + if b == a then 1 else 0
    ensures Insert(s, a).breakpoints.Keys == s.breakpoints.Keys + {a}
    ensures Insert(s, a).threads == s.threads && Insert(s, a).symbols == s.symbols
  {
  }

  lemma DeleteCounts(s: State, a: Addr)
    requires Count(s, a) > 0
    ensures Delete(s, a).Ok?
    ensures forall b: Addr :: Count(Delete(s, a).value, b) == Count(s, b) - if b == a then 1 else 0
    ensures Delete(s, a).value.breakpoints.Keys == s.breakpoints.Keys
    ensures Delete(s, a).value.threads == s.threads && Delete(s, a).value.symbols == s.symbols
  {
  }

  lemma ThreadSetKeepsStacks(s: State, k: nat, th: ThreadState)
    requires StacksOk(s) && k < |s.threads| && ThreadOk(th) && th.tid == s.threads[k].tid
    ensures StacksOk(SetThread(s, k, th))
  {
    var s' := SetThread(s, k, th);
    forall i, j | 0 <= i < j < |s'.threads| && s'.threads[i].tid != 0
      ensures s'.threads[i].tid != s'.threads[j].tid
    {
      assert s'.threads[i].tid == s.threads[i].tid && s'.threads[j].tid == s.threads[j].tid;
    }
  }

  /** A frame of a stack keeps its return address in the dictionary. */
  lemma FrameInDictionary(s: State, k: nat, i: nat)
    requires Inv(s) && k < |s.threads| && i < |s.threads[k].callstack| && s.threads[k].callstack[i].FuncFrame?
    ensures Count(s, s.threads[k].callstack[i].retAddr) >= 1
  {
    var a := s.threads[k].callstack[i].retAddr;
    FrameCounted(s.threads[k].callstack, i);
    StackWithin(s.threads, k, a);
    assert Count(s, a) == References(s, a);
  }

  /** The frame on top has a counted return address. */
  lemma TopCounted(s: State, k: nat)
    requires Inv(s) && k < |s.threads| && s.threads[k].callstack != []
    ensures var top := s.threads[k].callstack[|s.threads[k].callstack| - 1];
      top.FuncFrame? ==> Count(s, top.retAddr) > 0
  {
    var i := |s.threads[k].callstack| - 1;
    if s.threads[k].callstack[i].FuncFrame? {
      FrameInDictionary(s, k, i);
    }
  }

  lemma DropKeeps(s: State, k: nat)
    requires StacksOk(s) && k < |s.threads| && s.threads[k].callstack != [] && s.threads[k].tid != 0
    ensures StacksOk(DropFrame(s, k))
    ensures var top := s.threads[k].callstack[|s.threads[k].callstack| - 1];
      forall a: Addr :: References(DropFrame(s, k), a) == References(s, a) - Returning(top, a)
  {
    var th := s.threads[k];
    var th' := th.(callstack := th.callstack[..|th.callstack| - 1]);
    ThreadSetKeepsStacks(s, k, th');
    forall a: Addr
      ensures References(DropFrame(s, k), a) == References(s, a) - Returning(th.callstack[|th.callstack| - 1], a)
    {
      FramesAfterUpdate(s.threads, k, th', a);
    }
  }

  /** Popping undoes exactly one reference of the frame's return address, and cannot fail. */
  lemma PopKeeps(s: State, k: nat)
    requires Inv(s) && k < |s.threads| && s.threads[k].callstack != [] && s.threads[k].tid != 0
    ensures Pop(s, k).Ok? && Inv(Pop(s, k).value)
    ensures var th := s.threads[k];
      Pop(s, k).value.threads == s.threads[k := th.(callstack := th.callstack[..|th.callstack| - 1])]
    ensures Pop(s, k).value.symbols == s.symbols && Pop(s, k).value.breakpoints.Keys == s.breakpoints.Keys
  {
    var top := s.threads[k].callstack[|s.threads[k].callstack| - 1];
    TopCounted(s, k);
    if top.FuncFrame? {
      DeleteCounts(s, top.retAddr);
      DropKeeps(Delete(s, top.retAddr).value, k);
    } else {
      DropKeeps(s, k);
    }
    var s' := Pop(s, k).value;
    forall a: Addr ensures Count(s', a) == References(s', a) {
      assert Count(s, a) == References(s, a);
    }
  }

  lemma {:induction false} PopToKeeps(s: State, k: nat, depth: nat)
    requires Inv(s) && k < |s.threads| && depth <= |s.threads[k].callstack| && s.threads[k].tid != 0
    ensures PopTo(s, k, depth).Ok? && Inv(PopTo(s, k, depth).value)
    ensures var th := s.threads[k];
      PopTo(s, k, depth).value.threads == s.threads[k := th.(callstack := th.callstack[..depth])]
    ensures PopTo(s, k, depth).value.symbols == s.symbols
    ensures PopTo(s, k, depth).value.breakpoints.Keys == s.breakpoints.Keys
    decreases |s.threads[k].callstack|
  {
    var th := s.threads[k];
    if |th.callstack| == depth {
      assert th.callstack[..depth] == th.callstack;
      assert s.threads[k := th] == s.threads;
    } else {
      PopKeeps(s, k);
      var s1 := Pop(s, k).value;
      PopToKeeps(s1, k, depth);
      assert s1.threads[k].callstack[..depth] == th.callstack[..depth];
    }
  }

  lemma PushKeeps(s: State, k: nat, f: Frame)
    requires StacksOk(s) && k < |s.threads| && s.threads[k].tid != 0 && !Full(s.threads[k]) && FrameOk(f)
    ensures StacksOk(PushFrame(s, k, f))
    ensures forall a: Addr ::
      FramesReturning(PushFrame(s, k, f).threads, a) == FramesReturning(s.threads, a) + Returning(f, a)
  {
    var th := s.threads[k];
    var th' := th.(callstack := th.callstack + [f]);
    ThreadSetKeepsStacks(s, k, th');
    assert th'.callstack[..|th'.callstack| - 1] == th.callstack;
    forall a: Addr
      ensures FramesReturning(PushFrame(s, k, f).threads, a) == FramesReturning(s.threads, a) + Returning(f, a)
    {
      FramesAfterUpdate(s.threads, k, th', a);
    }
  }

  lemma PushSyscallKeeps(s: State, k: nat, sysnum: int, call: nat)
    requires Inv(s) && k < |s.threads| && s.threads[k].tid != 0 && sysnum >= 0 && sysnum != SYS_EXECVE
    ensures Inv(PushSyscall(s, k, sysnum, call))
  {
    if !Full(s.threads[k]) {
      var s' := PushSyscall(s, k, sysnum, call);
      PushKeeps(s, k, SyscallFrame(sysnum, call));
      forall a: Addr ensures Count(s', a) == References(s', a) {
        assert Count(s, a) == References(s, a);
      }
    }
  }

  lemma PushSymfuncKeeps(s: State, k: nat, sym: Symbol, ret: Addr, call: nat)
    requires Inv(s) && k < |s.threads| && s.threads[k].tid != 0
    ensures Inv(PushSymfunc(s, k, sym, ret, call))
    ensures PushSymfunc(s, k, sym, ret, call).symbols == s.symbols
  {
    if !Full(s.threads[k]) {
      var s' := PushSymfunc(s, k, sym, ret, call);
      InsertCounts(s, ret);
      PushKeeps(Insert(s, ret), k, FuncFrame(sym, ret, call));
      forall a: Addr ensures Count(s', a) == References(s', a) {
        assert Count(s, a) == References(s, a);
      }
    }
  }

  lemma BeingEnabledKeeps(s: State, k: nat, b: Option<Addr>)
    requires Inv(s) && k < |s.threads| && s.threads[k].tid != 0 && (b.Some? ==> b.value in s.breakpoints)
    ensures Inv(SetThread(s, k, s.threads[k].(beingEnabled := b)))
  {
    var th' := s.threads[k].(beingEnabled := b);
    var s' := SetThread(s, k, th');
    ThreadSetKeepsStacks(s, k, th');
    forall a: Addr ensures Count(s', a) == References(s', a) {
      assert Count(s, a) == References(s, a);
      FramesAfterUpdate(s.threads, k, th', a);
    }
  }

  lemma ContinueKeeps(s: State, k: nat, a: Addr)
    requires Inv(s) && k < |s.threads| && s.threads[k].tid != 0 && a in s.breakpoints
    ensures ContinueAfter(s, k, a).Ok? && Inv(ContinueAfter(s, k, a).value)
  {
    if s.breakpoints[a].enabled != 0 {
      SameCounts(s, DisableBp(s, a));
      BeingEnabledKeeps(DisableBp(s, a), k, Some(a));
    }
  }

  /** Popping touches neither the log nor the mode. */
  lemma {:induction false} PopAside(s: State, k: nat, depth: nat)
    requires k < |s.threads|
    ensures Pop(s, k).Ok? ==>
      var s' := Pop(s, k).value; s'.printer == s.printer && s'.calls == s.calls && s'.mode == s.mode
    ensures PopTo(s, k, depth).Ok? ==>
      var s' := PopTo(s, k, depth).value; s'.printer == s.printer && s'.calls == s.calls && s'.mode == s.mode
    decreases |s.threads[k].callstack|
  {
    if |s.threads[k].callstack| > depth && Pop(s, k).Ok? {
      PopAside(Pop(s, k).value, k, depth);
    }
  }

  // --- handlers ---

  lemma ReinsertKeeps(s: State, k: nat)
    requires Inv(s) && k < |s.threads| && s.threads[k].tid != 0 && s.threads[k].beingEnabled.Some?
    ensures var r := Reinsert(s, k, s.threads[k].beingEnabled.value); r.Ok? && Inv(r.value)
  {
    var a := s.threads[k].beingEnabled.value;
    SameCounts(s, EnableBp(s, a));
    BeingEnabledKeeps(EnableBp(s, a), k, None);
  }

  /** A return cuts the thread's stack at frame `i`. */
  lemma ReturnedKeeps(s: State, o: Options, k: nat, i: nat)
    requires Inv(s) && k < |s.threads| && s.threads[k].tid != 0 && i < |s.threads[k].callstack|
    ensures Returned(s, o, k, i).Ok? && Inv(Returned(s, o, k, i).value)
    ensures var th := s.threads[k];
      Returned(s, o, k, i).value.threads == s.threads[k := th.(callstack := th.callstack[..i])]
    ensures Returned(s, o, k, i).value.symbols == s.symbols
    ensures Returned(s, o, k, i).value.breakpoints.Keys == s.breakpoints.Keys
  {
    var th := s.threads[k];
    PopToKeeps(s, k, i + 1);
    var s1 := PopTo(s, k, i + 1).value;
    assert s1.threads[k].callstack[..i] == th.callstack[..i];
    PopKeeps(s1, k);
    SameCounts(Pop(s1, k).value, Returned(s, o, k, i).value);
  }

  lemma ReturnKeeps(s: State, o: Options, k: nat, i: nat, addr: Addr)
    requires Inv(s) && k < |s.threads| && s.threads[k].tid != 0 && i < |s.threads[k].callstack|
    requires addr in s.breakpoints
    ensures HandleReturn(s, o, k, i, addr).Ok? && Inv(HandleReturn(s, o, k, i, addr).value)
  {
    ReturnedKeeps(s, o, k, i);
    ContinueKeeps(Returned(s, o, k, i).value, k, addr);
  }

  /** A call leaves every symbol counted, and the thread's stack as it was or one frame deeper. */
  lemma CalledKeeps(s: State, o: Options, k: nat, sym: Symbol, ret: Addr)
    requires Inv(s) && k < |s.threads| && s.threads[k].tid != 0
    ensures Inv(Called(s, o, k, sym, ret)) && Called(s, o, k, sym, ret).symbols == s.symbols
    ensures var th := s.threads[k];
      Called(s, o, k, sym, ret).threads ==
      if Full(th) then s.threads
      else s.threads[k := th.(callstack := th.callstack + [FuncFrame(sym, ret, s.calls)])]
  {
    var s1 := WithPrinter(s, PrintLeft(s.printer, o, s.threads[k].tid, |s.threads[k].callstack|, s.calls));
    SameCounts(s, s1);
    PushSymfuncKeeps(s1, k, sym, ret, s.calls);
    SameCounts(PushSymfunc(s1, k, sym, ret, s.calls), Called(s, o, k, sym, ret));
  }

  /** The breakpoint of a kept symbol is always in the dictionary, and counted. */
  lemma SymbolInDictionary(s: State, j: nat)
    requires Inv(s) && j < |s.symbols|
    ensures Count(s, s.symbols[j].enterAddr) >= 1
  {
    SymbolCounted(s.symbols, j);
    assert Count(s, s.symbols[j].enterAddr) == References(s, s.symbols[j].enterAddr);
  }

  lemma CallKeeps(s: State, o: Options, k: nat, j: nat, ret: Addr)
    requires Inv(s) && k < |s.threads| && s.threads[k].tid != 0 && j < |s.symbols|
    ensures HandleCall(s, o, k, s.symbols[j], ret).Ok? && Inv(HandleCall(s, o, k, s.symbols[j], ret).value)
  {
    CalledKeeps(s, o, k, s.symbols[j], ret);
    SymbolInDictionary(Called(s, o, k, s.symbols[j], ret), j);
    ContinueKeeps(Called(s, o, k, s.symbols[j], ret), k, s.symbols[j].enterAddr);
  }

  lemma BreakpointKeeps(s: State, o: Options, k: nat, addr: Addr, ret: Addr)
    requires Inv(s) && k < |s.threads| && s.threads[k].tid != 0 && addr != 0
    ensures HandleBreakpoint(s, o, k, addr, ret).Ok? && Inv(HandleBreakpoint(s, o, k, addr, ret).value)
  {
    var th := s.threads[k];
    if th.beingEnabled.Some? {
      ReinsertKeeps(s, k);
    } else {
      var i := FindFrame(th.callstack, addr, |th.callstack|);
      if i >= 0 {
        FrameInDictionary(s, k, i);
        ReturnKeeps(s, o, k, i, addr);
      } else {
        var j := FindSymbol(s.symbols, addr, 0);
        if j < |s.symbols| {
          CallKeeps(s, o, k, j, ret);
        } else {
          SameCounts(s, WithPrinter(s, PrintLine(s.printer, o)));
        }
      }
    }
  }

  lemma SysretKeeps(s: State, o: Options, k: nat)
    requires Inv(s) && k < |s.threads| && s.threads[k].tid != 0 && s.threads[k].callstack != []
    ensures HandleSysret(s, o, k).Ok? && Inv(HandleSysret(s, o, k).value)
  {
    PopKeeps(s, k);
    SameCounts(Pop(s, k).value, HandleSysret(s, o, k).value);
  }

  lemma SyscallKeeps(s: State, o: Options, k: nat, sysnum: int)
    requires Inv(s) && k < |s.threads| && s.threads[k].tid != 0 && sysnum >= 0
    ensures Inv(HandleSyscall(s, o, k, sysnum))
  {
    var th := s.threads[k];
    var s1 := if o.showSyscalls
              then WithPrinter(s, PrintLeft(s.printer, o, th.tid, |th.callstack|, s.calls)) else s;
    SameCounts(s, s1);
    var s2 := if sysnum != SYS_CLONE && s1.mode == 0 then EnableAll(s1) else s1;
    SameCounts(s1, s2);
    if sysnum != SYS_EXECVE {
      PushSyscallKeeps(s2, k, sysnum, s.calls);
      SameCounts(PushSyscall(s2, k, sysnum, s.calls), HandleSyscall(s, o, k, sysnum));
    } else {
      SameCounts(s2, HandleSyscall(s, o, k, sysnum));
    }
  }

  lemma LocateKeeps(s: State, tid: nat)
    requires Inv(s) && tid != 0 && Locate(s, tid).Some?
    ensures var (s', k) := Locate(s, tid).value; Inv(s') && k < |s'.threads| && s'.threads[k].tid == tid
  {
    if FindTid(s.threads, tid, 0) == |s.threads| {
      var free := FindTid(s.threads, 0, 0);
      var th' := s.threads[free].(tid := tid);
      var s' := SetThread(s, free, th');
      forall a: Addr ensures Count(s', a) == References(s', a) {
        assert Count(s, a) == References(s, a);
        FramesAfterUpdate(s.threads, free, th', a);
      }
    }
  }

  /** A trap stop is the end of a trap instruction, so it is not at address zero; waitpid names a thread. */
  predicate RealStop(tid: nat, stop: Stop) {
    tid != 0 && (stop.Stopped? ==> DecrPc(stop.pc) != 0)
  }

  ghost predicate NextOk(n: Next) {
    match n
    case Running(s) => Inv(s)
    case Gone(s) => Inv(s)
    case Quit => true
    case ExecReturned => false
  }

  /** From a state of the invariant, no stop fails an assertion, dereferences a null breakpoint or reaches
      the exec branch of process_sysret, and the invariant holds again. */
  lemma StepKeeps(s: State, o: Options, tid: nat, stop: Stop)
    requires Inv(s) && RealStop(tid, stop)
    ensures Step(s, o, tid, stop).Ok? && NextOk(Step(s, o, tid, stop).value)
  {
    if Locate(s, tid).Some? {
      LocateKeeps(s, tid);
      var (s1, k) := Locate(s, tid).value;
      if s1.mode == -1 {
        SameCounts(s1, EnableAll(s1));
      } else {
        match Classify(s1.threads[k], stop)
        case Syscall(sysnum) => SyscallKeeps(s1, o, k, sysnum);
        case Sysret(sysnum) => SysretKeeps(s1, o, k);
        case ExitEvent => SameCounts(s1, WithPrinter(s1, PrintLine(s1.printer, o)));
        case Unknown =>
        case Signal(signum, exiting) =>
          SameCounts(s1, DisableAll(s1));
          SameCounts(s1, WithPrinter(s1, PrintLine(s1.printer, o)));
        case BreakpointHit(addr, ret) => BreakpointKeeps(s1, o, k, addr, ret);
      }
    }
  }

  // --- whole runs ---

  lemma {:induction false} InsertSymbolsCounts(s: State, symbols: seq<Symbol>)
    ensures forall a: Addr :: Count(InsertSymbols(s, symbols), a) == Count(s, a) + SymbolsAt(symbols, a)
    ensures InsertSymbols(s, symbols).threads == s.threads && InsertSymbols(s, symbols).symbols == s.symbols
    decreases |symbols|
  {
    if symbols != [] {
      InsertCounts(s, symbols[0].enterAddr);
      InsertSymbolsCounts(Insert(s, symbols[0].enterAddr), symbols[1..]);
    }
  }

  lemma {:induction false} NoFrames(threads: seq<ThreadState>, a: Addr)
    requires forall k :: 0 <= k < |threads| ==> threads[k].callstack == []
    ensures FramesReturning(threads, a) == 0
    decreases |threads|
  {
    if threads != [] {
      NoFrames(threads[1..], a);
    }
  }

  lemma AttachInv(symbols: seq<Symbol>, text: Text, pid: nat)
    ensures Inv(Attach(symbols, text, pid))
  {
    var empty := Unattached(symbols, text);
    InsertSymbolsCounts(empty, symbols);
    var s := Attach(symbols, text, pid);
    forall a: Addr ensures Count(s, a) == References(s, a) {
      NoFrames(s.threads, a);
    }
  }

  ghost predicate RealStops(inputs: seq<Input>) {
    forall i :: 0 <= i < |inputs| ==> RealStop(inputs[i].tid, inputs[i].stop)
  }

  /** In every run from attachment on, counts are conserved, stacks stay within bounds, and nothing aborts. */
  lemma {:induction false} RunKeeps(symbols: seq<Symbol>, text: Text, pid: nat, o: Options, inputs: seq<Input>)
    requires RealStops(inputs)
    ensures var r := Run(Attach(symbols, text, pid), o, inputs); r.Ok? && NextOk(r.value)
    decreases |inputs|
  {
    AttachInv(symbols, text, pid);
    if inputs != [] {
      RunKeeps(symbols, text, pid, o, inputs[..|inputs| - 1]);
      var n := Run(Attach(symbols, text, pid), o, inputs[..|inputs| - 1]).value;
      if n.Running? {
        StepKeeps(n.s, o, inputs[|inputs| - 1].tid, inputs[|inputs| - 1].stop);
      }
    }
  }

  /** A stop taken for a system call's return finds that call's frame on top and pops exactly it. */
  lemma {:induction false} SysretPopsItsCall(s: State, o: Options, k: nat, stop: Stop)
    requires Inv(s) && k < |s.threads| && s.threads[k].tid != 0
    requires Classify(s.threads[k], stop).Sysret?
    ensures var stack := s.threads[k].callstack;
      && stack != [] && stack[|stack| - 1].SyscallFrame?
      && stack[|stack| - 1].sysnum == Classify(s.threads[k], stop).sysnum != SYS_EXECVE
      && HandleSysret(s, o, k).Ok?
      && HandleSysret(s, o, k).value.threads[k].callstack == stack[..|stack| - 1]
      && HandleSysret(s, o, k).value.breakpoints == s.breakpoints
      && HandleSysret(s, o, k).value.text == s.text
  {
    assert FrameOk(s.threads[k].callstack[|s.threads[k].callstack| - 1]);
  }
}
