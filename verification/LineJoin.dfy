/** A return is written on the open line exactly when that line is the call of the frame it pops. */
module LineJoin {
  import opened Base
  import opened Memory
  import opened Tracer
  import opened RefCounts

  /** Item `i` is a return joined to the line just before it exactly when that line is its own call. */
  ghost predicate JoinOk(items: seq<Item>, i: nat)
    requires i < |items|
  {
    && (items[i].Right? ==>
          (items[i].joined <==> i > 0 && items[i - 1].Left? && items[i - 1].call == items[i].call))
    && (items[i].Right? && items[i].joined ==>
          items[i - 1].tid == items[i].tid && items[i - 1].depth == items[i].depth)
  }

  ghost predicate JoinsOk(items: seq<Item>) {
    forall i :: 0 <= i < |items| ==> JoinOk(items, i)
  }

  // --- every call printed is finished, broken off or still open ---

  function Calls(items: seq<Item>): nat {
    if items == [] then 0 else Calls(items[..|items| - 1]) + if items[|items| - 1].Left? then 1 else 0
  }

  function JoinedReturns(items: seq<Item>): nat {
    if items == [] then 0
    else
      var last := items[|items| - 1];
      JoinedReturns(items[..|items| - 1]) + if last.Right? && last.joined then 1 else 0
  }

  function BrokenOff(items: seq<Item>): nat {
    if items == [] then 0 else BrokenOff(items[..|items| - 1]) + if items[|items| - 1].broke then 1 else 0
  }

  /** calls printed = finished on their line + left unfinished + the one still open */
  ghost predicate Balanced(p: PrinterState) {
    Calls(p.items) == JoinedReturns(p.items) + BrokenOff(p.items) + if p.currentPid != 0 then 1 else 0
  }

  lemma {:induction false} PrintsBalance(p: PrinterState, o: Options, tid: nat, depth: nat, call: nat)
    requires Balanced(p) && tid != 0
    ensures Balanced(PrintLeft(p, o, tid, depth, call))
    ensures Balanced(PrintRight(p, o, tid, depth, call))
    ensures Balanced(PrintLine(p, o))
  {
    var left := PrintLeft(p, o, tid, depth, call).items;
    var right := PrintRight(p, o, tid, depth, call).items;
    var line := PrintLine(p, o).items;
    if !o.countOnly {
      assert left[..|left| - 1] == right[..|right| - 1] == line[..|line| - 1] == p.items;
    }
  }

  /** Calls have their own serial numbers, all below `calls`. */
  ghost predicate Numbered(threads: seq<ThreadState>, calls: nat) {
    && (forall k, i :: 0 <= k < |threads| && 0 <= i < |threads[k].callstack| ==> threads[k].callstack[i].call < calls)
    && (forall k, i, m, j | 0 <= k < |threads| && 0 <= i < |threads[k].callstack|
                         && 0 <= m < |threads| && 0 <= j < |threads[m].callstack| ::
          threads[k].callstack[i].call == threads[m].callstack[j].call ==> k == m && i == j)
  }

  ghost predicate Unused(threads: seq<ThreadState>, call: nat) {
    forall k, i :: 0 <= k < |threads| && 0 <= i < |threads[k].callstack| ==> threads[k].callstack[i].call != call
  }

  /** Where the call that opened the line is: still on its thread's stack, at the depth it was printed with and
      under hidden system calls only, or never pushed. */
  ghost predicate Opened(threads: seq<ThreadState>, o: Options, k: nat, depth: nat, call: nat)
    requires k < |threads|
  {
    var stack := threads[k].callstack;
    if |stack| > depth then
      && stack[depth].call == call
      && (o.showSyscalls ==> |stack| == depth + 1)
      && (!o.showSyscalls ==> stack[depth].FuncFrame? && forall j :: depth < j < |stack| ==> stack[j].SyscallFrame?)
    else
      Unused(threads, call) && (if o.showSyscalls then |stack| == depth else depth == MAX_CALLDEPTH - 1)
  }

  ghost predicate LineOpen(threads: seq<ThreadState>, p: PrinterState, o: Options, call: nat) {
    exists k :: 0 <= k < |threads| && threads[k].tid == p.currentPid && Opened(threads, o, k, p.currentDepth, call)
  }

  predicate EndsOpen(p: PrinterState) {
    |p.items| > 0 && p.items[|p.items| - 1].Left?
  }

  /** Calls are printed under rising numbers: each has one line of its own. */
  ghost predicate LinesNumbered(items: seq<Item>, calls: nat) {
    && (forall i :: 0 <= i < |items| && items[i].Left? ==> items[i].call < calls)
    && (forall i, j :: 0 <= i < j < |items| && items[i].Left? && items[j].Left? ==> items[i].call < items[j].call)
  }

  ghost predicate Joined(threads: seq<ThreadState>, p: PrinterState, o: Options, calls: nat) {
    && JoinsOk(p.items)
    && Balanced(p)
    && Numbered(threads, calls)
    && LinesNumbered(p.items, calls)
    && (o.countOnly ==> p.items == [])
    && (p.currentPid != 0 <==> EndsOpen(p))
    && (EndsOpen(p) ==>
          var last := p.items[|p.items| - 1];
          && last.tid == p.currentPid && last.depth == p.currentDepth && last.call < calls
          && LineOpen(threads, p, o, last.call))
  }

  ghost predicate StateJoined(s: State, o: Options) {
    Joined(s.threads, s.printer, o, s.calls)
  }

  // --- the changes a stop makes ---

  /** Stacks, thread ids and the log are all that matters. */
  lemma SameStacks(threads: seq<ThreadState>, threads': seq<ThreadState>, p: PrinterState, o: Options, calls: nat)
    requires Joined(threads, p, o, calls) && |threads'| == |threads|
    requires forall k :: 0 <= k < |threads| ==> threads'[k].callstack == threads[k].callstack
    requires forall k :: 0 <= k < |threads| && threads[k].tid != 0 ==> threads'[k].tid == threads[k].tid
    ensures Joined(threads', p, o, calls)
  {
    if EndsOpen(p) {
      var call := p.items[|p.items| - 1].call;
      var k :| 0 <= k < |threads| && threads[k].tid == p.currentPid && Opened(threads, o, k, p.currentDepth, call);
      assert Opened(threads', o, k, p.currentDepth, call);
    }
  }

  lemma LineKeepsJoined(threads: seq<ThreadState>, p: PrinterState, o: Options, calls: nat)
    requires Joined(threads, p, o, calls)
    ensures Joined(threads, PrintLine(p, o), o, calls)
  {
    AppendKeepsJoins(p.items, Line(p.currentPid != 0));
    PrintsBalance(p, o, 1, 0, 0);
  }

  lemma AppendKeepsJoins(items: seq<Item>, item: Item)
    requires JoinsOk(items) && JoinOk(items + [item], |items|)
    ensures JoinsOk(items + [item])
  {
    forall i | 0 <= i < |items| + 1 ensures JoinOk(items + [item], i) {
      if i < |items| {
        assert JoinOk(items, i);
      }
    }
  }

  function Pushed(threads: seq<ThreadState>, k: nat, f: Frame): seq<ThreadState>
    requires k < |threads|
  {
    threads[k := threads[k].(callstack := threads[k].callstack + [f])]
  }

  function Cut(threads: seq<ThreadState>, k: nat, i: nat): seq<ThreadState>
    requires k < |threads| && i <= |threads[k].callstack|
  {
    threads[k := threads[k].(callstack := threads[k].callstack[..i])]
  }

  lemma PushNumbered(threads: seq<ThreadState>, k: nat, f: Frame, calls: nat)
    requires Numbered(threads, calls) && k < |threads| && f.call == calls
    ensures Numbered(Pushed(threads, k, f), calls + 1)
  {
  }

  lemma CutNumbered(threads: seq<ThreadState>, k: nat, i: nat, calls: nat)
    requires Numbered(threads, calls) && k < |threads| && i <= |threads[k].callstack|
    ensures Numbered(Cut(threads, k, i), calls)
  {
  }

  /** A call is printed before it is pushed. */
  lemma PrintedPushJoined(threads: seq<ThreadState>, p: PrinterState, o: Options, calls: nat, k: nat, f: Frame)
    requires Joined(threads, p, o, calls) && k < |threads| && threads[k].tid != 0
    requires f.call == calls && (!o.showSyscalls ==> f.FuncFrame?)
    ensures Joined(Pushed(threads, k, f),
                   PrintLeft(p, o, threads[k].tid, |threads[k].callstack|, calls), o, calls + 1)
  {
    var threads' := Pushed(threads, k, f);
    var p' := PrintLeft(p, o, threads[k].tid, |threads[k].callstack|, calls);
    PushNumbered(threads, k, f, calls);
    if !o.countOnly {
      PrintsBalance(p, o, threads[k].tid, |threads[k].callstack|, calls);
      AppendKeepsJoins(p.items, p'.items[|p.items|]);
      assert Opened(threads', o, k, p'.currentDepth, calls);
    }
  }

  /** A printed call that is not pushed: the stack is full, or it is execve. */
  lemma PrintedDropJoined(threads: seq<ThreadState>, p: PrinterState, o: Options, calls: nat, k: nat)
    requires Joined(threads, p, o, calls) && k < |threads| && threads[k].tid != 0
    requires Full(threads[k]) || o.showSyscalls
    ensures Joined(threads, PrintLeft(p, o, threads[k].tid, |threads[k].callstack|, calls), o, calls + 1)
  {
    var p' := PrintLeft(p, o, threads[k].tid, |threads[k].callstack|, calls);
    if !o.countOnly {
      PrintsBalance(p, o, threads[k].tid, |threads[k].callstack|, calls);
      AppendKeepsJoins(p.items, p'.items[|p.items|]);
      assert Opened(threads, o, k, p'.currentDepth, calls);
    }
  }

  /** A hidden system call is pushed. */
  lemma HiddenPushJoined(threads: seq<ThreadState>, p: PrinterState, o: Options, calls: nat, k: nat, f: Frame)
    requires Joined(threads, p, o, calls) && k < |threads| && !o.showSyscalls && TidsDistinct(threads)
    requires f.call == calls && f.SyscallFrame? && !Full(threads[k]) && ThreadOk(threads[k])
    ensures Joined(Pushed(threads, k, f), p, o, calls + 1)
  {
    var threads' := Pushed(threads, k, f);
    PushNumbered(threads, k, f, calls);
    if EndsOpen(p) {
      var call := p.items[|p.items| - 1].call;
      var m :| 0 <= m < |threads| && threads[m].tid == p.currentPid && Opened(threads, o, m, p.currentDepth, call);
      assert Opened(threads', o, m, p.currentDepth, call);
    }
  }

  /** A hidden system call is popped. */
  lemma HiddenPopJoined(threads: seq<ThreadState>, p: PrinterState, o: Options, calls: nat, k: nat)
    requires Joined(threads, p, o, calls) && k < |threads| && !o.showSyscalls
    requires threads[k].callstack != [] && threads[k].callstack[|threads[k].callstack| - 1].SyscallFrame?
    ensures Joined(Cut(threads, k, |threads[k].callstack| - 1), p, o, calls)
  {
    var threads' := Cut(threads, k, |threads[k].callstack| - 1);
    CutNumbered(threads, k, |threads[k].callstack| - 1, calls);
    if EndsOpen(p) {
      var call := p.items[|p.items| - 1].call;
      var m :| 0 <= m < |threads| && threads[m].tid == p.currentPid && Opened(threads, o, m, p.currentDepth, call);
      assert Opened(threads', o, m, p.currentDepth, call);
    }
  }

  /** A return is printed after its frame has been popped. */
  lemma ReturnJoined(threads: seq<ThreadState>, p: PrinterState, o: Options, calls: nat, k: nat, i: nat)
    requires Joined(threads, p, o, calls) && k < |threads| && threads[k].tid != 0 && TidsDistinct(threads)
    requires i < |threads[k].callstack|
    ensures Joined(Cut(threads, k, i), PrintRight(p, o, threads[k].tid, i, threads[k].callstack[i].call), o, calls)
  {
    var call := threads[k].callstack[i].call;
    var p' := PrintRight(p, o, threads[k].tid, i, call);
    CutNumbered(threads, k, i, calls);
    if !o.countOnly {
      PrintsBalance(p, o, threads[k].tid, i, call);
      if EndsOpen(p) {
        var last := p.items[|p.items| - 1];
        var m :| 0 <= m < |threads| && threads[m].tid == p.currentPid &&
                 Opened(threads, o, m, p.currentDepth, last.call);
        assert m < k ==> threads[m].tid != threads[k].tid;
        assert k < m ==> threads[k].tid != threads[m].tid;
      }
      AppendKeepsJoins(p.items, p'.items[|p.items|]);
    }
  }

  // --- handlers ---

  lemma CallJoined(s: State, o: Options, k: nat, j: nat, ret: Addr)
    requires StateJoined(s, o) && Inv(s) && k < |s.threads| && s.threads[k].tid != 0 && j < |s.symbols|
    ensures HandleCall(s, o, k, s.symbols[j], ret).Ok?
    ensures StateJoined(HandleCall(s, o, k, s.symbols[j], ret).value, o)
  {
    var s' := Called(s, o, k, s.symbols[j], ret);
    CalledKeeps(s, o, k, s.symbols[j], ret);
    CalledPrints(s, o, k, s.symbols[j], ret);
    if Full(s.threads[k]) {
      PrintedDropJoined(s.threads, s.printer, o, s.calls, k);
    } else {
      PrintedPushJoined(s.threads, s.printer, o, s.calls, k, FuncFrame(s.symbols[j], ret, s.calls));
    }
    SymbolInDictionary(s', j);
    ContinueJoined(s', o, k, s.symbols[j].enterAddr);
  }

  lemma CalledPrints(s: State, o: Options, k: nat, sym: Symbol, ret: Addr)
    requires k < |s.threads|
    ensures var th := s.threads[k];
      Called(s, o, k, sym, ret).printer == PrintLeft(s.printer, o, th.tid, |th.callstack|, s.calls)
    ensures Called(s, o, k, sym, ret).calls == s.calls + 1
  {
  }

  lemma ReturnedJoined(s: State, o: Options, k: nat, i: nat)
    requires StateJoined(s, o) && Inv(s) && k < |s.threads| && s.threads[k].tid != 0 && i < |s.threads[k].callstack|
    ensures Returned(s, o, k, i).Ok? && StateJoined(Returned(s, o, k, i).value, o)
  {
    ReturnedKeeps(s, o, k, i);
    PopAside(s, k, i + 1);
    PopAside(PopTo(s, k, i + 1).value, k, 0);
    ReturnJoined(s.threads, s.printer, o, s.calls, k, i);
  }

  lemma ContinueJoined(s: State, o: Options, k: nat, a: Addr)
    requires StateJoined(s, o) && k < |s.threads| && a in s.breakpoints
    ensures ContinueAfter(s, k, a).Ok? && StateJoined(ContinueAfter(s, k, a).value, o)
  {
    SameStacks(s.threads, ContinueAfter(s, k, a).value.threads, s.printer, o, s.calls);
  }

  lemma HandleReturnJoined(s: State, o: Options, k: nat, i: nat, addr: Addr)
    requires StateJoined(s, o) && Inv(s) && k < |s.threads| && s.threads[k].tid != 0 && i < |s.threads[k].callstack|
    requires addr in s.breakpoints
    ensures HandleReturn(s, o, k, i, addr).Ok? && StateJoined(HandleReturn(s, o, k, i, addr).value, o)
  {
    ReturnedKeeps(s, o, k, i);
    ReturnedJoined(s, o, k, i);
    ContinueJoined(Returned(s, o, k, i).value, o, k, addr);
  }

  lemma BreakpointJoined(s: State, o: Options, k: nat, addr: Addr, ret: Addr)
    requires StateJoined(s, o) && Inv(s) && k < |s.threads| && s.threads[k].tid != 0 && addr != 0
    requires s.threads[k].beingEnabled == None
    ensures HandleBreakpoint(s, o, k, addr, ret).Ok?
    ensures StateJoined(HandleBreakpoint(s, o, k, addr, ret).value, o)
  {
    var i := FindFrame(s.threads[k].callstack, addr, |s.threads[k].callstack|);
    var j := FindSymbol(s.symbols, addr, 0);
    if i >= 0 {
      FrameInDictionary(s, k, i);
      HandleReturnJoined(s, o, k, i, addr);
    } else if j < |s.symbols| {
      CallJoined(s, o, k, j, ret);
    } else {
      LineKeepsJoined(s.threads, s.printer, o, s.calls);
    }
  }

  /** What a system call does to stacks and log. */
  lemma SyscallChanges(s: State, o: Options, k: nat, sysnum: int)
    requires k < |s.threads|
    ensures var th, s' := s.threads[k], HandleSyscall(s, o, k, sysnum);
      && s'.calls == s.calls + 1
      && s'.printer == (if o.showSyscalls then PrintLeft(s.printer, o, th.tid, |th.callstack|, s.calls) else s.printer)
      && s'.threads == (if sysnum == SYS_EXECVE || Full(th) then s.threads
                        else Pushed(s.threads, k, SyscallFrame(sysnum, s.calls)))
  {
  }

  lemma UnprintedCall(threads: seq<ThreadState>, p: PrinterState, o: Options, calls: nat)
    requires Joined(threads, p, o, calls)
    ensures Joined(threads, p, o, calls + 1)
  {
  }

  /** A system call, printed or not, pushed or not. */
  lemma {:induction false} EntryJoined(threads: seq<ThreadState>, p: PrinterState, o: Options, calls: nat, k: nat,
                                       f: Frame, dropped: bool)
    requires Joined(threads, p, o, calls) && TidsDistinct(threads) && k < |threads| && threads[k].tid != 0
    requires ThreadOk(threads[k]) && f.SyscallFrame? && f.call == calls
    requires Full(threads[k]) ==> dropped
    ensures var th := threads[k];
      Joined(if dropped then threads else Pushed(threads, k, f),
             if o.showSyscalls then PrintLeft(p, o, th.tid, |th.callstack|, calls) else p, o, calls + 1)
  {
    if o.showSyscalls && dropped {
      PrintedDropJoined(threads, p, o, calls, k);
    } else if o.showSyscalls {
      PrintedPushJoined(threads, p, o, calls, k, f);
    } else if dropped {
      UnprintedCall(threads, p, o, calls);
    } else {
      HiddenPushJoined(threads, p, o, calls, k, f);
    }
  }

  lemma SysretJoined(s: State, o: Options, k: nat, stop: Stop)
    requires StateJoined(s, o) && Inv(s) && k < |s.threads| && s.threads[k].tid != 0
    requires Classify(s.threads[k], stop).Sysret?
    ensures HandleSysret(s, o, k).Ok? && StateJoined(HandleSysret(s, o, k).value, o)
  {
    SysretPopsItsCall(s, o, k, stop);
    PopKeeps(s, k);
    PopAside(s, k, 0);
    if o.showSyscalls {
      ReturnJoined(s.threads, s.printer, o, s.calls, k, |s.threads[k].callstack| - 1);
    } else {
      HiddenPopJoined(s.threads, s.printer, o, s.calls, k);
    }
  }

  lemma LocateJoined(s: State, o: Options, tid: nat)
    requires StateJoined(s, o) && Inv(s) && tid != 0 && Locate(s, tid).Some?
    ensures StateJoined(Locate(s, tid).value.0, o)
  {
    SameStacks(s.threads, Locate(s, tid).value.0.threads, s.printer, o, s.calls);
  }

  ghost predicate NextJoined(n: Next, o: Options) {
    match n
    case Running(s) => StateJoined(s, o)
    case Gone(s) => StateJoined(s, o)
    case Quit => true
    case ExecReturned => false
  }

  lemma StepKeepsJoined(s: State, o: Options, tid: nat, stop: Stop)
    requires StateJoined(s, o) && Inv(s) && RealStop(tid, stop)
    ensures Step(s, o, tid, stop).Ok? && NextJoined(Step(s, o, tid, stop).value, o)
  {
    StepKeeps(s, o, tid, stop);
    if Locate(s, tid).Some? {
      LocateKeeps(s, tid);
      LocateJoined(s, o, tid);
      var (s1, k) := Locate(s, tid).value;
      if s1.mode != -1 {
        HandleJoined(s1, o, k, stop);
      }
    }
  }

  lemma TrapJoined(s: State, o: Options, k: nat, addr: Addr, ret: Addr)
    requires StateJoined(s, o) && Inv(s) && k < |s.threads| && s.threads[k].tid != 0 && addr != 0
    ensures HandleBreakpoint(s, o, k, addr, ret).Ok?
    ensures StateJoined(HandleBreakpoint(s, o, k, addr, ret).value, o)
  {
    if s.threads[k].beingEnabled.Some? {
      ReinsertKeeps(s, k);
      SameStacks(s.threads, Reinsert(s, k, s.threads[k].beingEnabled.value).value.threads, s.printer, o, s.calls);
    } else {
      BreakpointJoined(s, o, k, addr, ret);
    }
  }

  lemma HandleJoined(s: State, o: Options, k: nat, stop: Stop)
    requires StateJoined(s, o) && Inv(s) && k < |s.threads| && s.threads[k].tid != 0
    requires RealStop(s.threads[k].tid, stop)
    ensures match Handle(s, o, k, Classify(s.threads[k], stop))
      case Ok(n) => n.ExecReturned? || NextJoined(n, o)
      case Aborted => true
  {
    hide Joined, HandleSyscall, HandleSysret, HandleBreakpoint;
    match Classify(s.threads[k], stop)
    case Syscall(sysnum) =>
      SyscallChanges(s, o, k, sysnum);
      assert ThreadOk(s.threads[k]);
      EntryJoined(s.threads, s.printer, o, s.calls, k, SyscallFrame(sysnum, s.calls),
                  sysnum == SYS_EXECVE || Full(s.threads[k]));
    case Sysret(sysnum) => SysretJoined(s, o, k, stop);
    case ExitEvent => LineKeepsJoined(s.threads, s.printer, o, s.calls);
    case Unknown =>
    case Signal(signum, exiting) => LineKeepsJoined(s.threads, s.printer, o, s.calls);
    case BreakpointHit(addr, ret) => TrapJoined(s, o, k, addr, ret);
  }

  lemma {:induction false} InsertSymbolsPrints(s: State, symbols: seq<Symbol>)
    ensures InsertSymbols(s, symbols).printer == s.printer && InsertSymbols(s, symbols).calls == s.calls
    ensures InsertSymbols(s, symbols).threads == s.threads
    decreases |symbols|
  {
    if symbols != [] {
      InsertSymbolsPrints(Insert(s, symbols[0].enterAddr), symbols[1..]);
    }
  }

  /** In every interleaving of threads, unwinds, hidden system calls and calls dropped at full depth, a return is
      written on the open line exactly when what was printed last is the call of the frame that was popped. */
  lemma {:induction false} RunJoins(symbols: seq<Symbol>, text: Text, pid: nat, o: Options, inputs: seq<Input>)
    requires RealStops(inputs)
    ensures var r := Run(Attach(symbols, text, pid), o, inputs); r.Ok? && NextJoined(r.value, o)
    decreases |inputs|
  {
    if inputs == [] {
      var empty := Unattached(symbols, text);
      InsertSymbolsPrints(empty, symbols);
    } else {
      RunJoins(symbols, text, pid, o, inputs[..|inputs| - 1]);
      RunKeeps(symbols, text, pid, o, inputs[..|inputs| - 1]);
      var n := Run(Attach(symbols, text, pid), o, inputs[..|inputs| - 1]).value;
      if n.Running? {
        StepKeepsJoined(n.s, o, inputs[|inputs| - 1].tid, inputs[|inputs| - 1].stop);
      }
    }
  }
}
