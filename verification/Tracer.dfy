/** The tracer as a state machine: what each ptrace stop does to the tracee's text, the breakpoint
    dictionary, the shadow call stacks and the log (process_event.c, breakpoints.c,
    wait_for_something.c, sysdeps/linux-gnu/trace.c, sysdeps/linux-gnu/i386/trace.c). */
module Tracer {
  import opened Base
  import opened Memory

  /** Aborted: a failed assert() or a null pointer dereference. */
  datatype Outcome<+T> = Ok(value: T) | Aborted {
    predicate IsFailure() {
      Aborted?
    }

    function PropagateFailure<U>(): Outcome<U>
      requires Aborted?
    {
      Aborted
    }

    function Extract(): T
      requires Ok?
    {
      value
    }
  }

  // --- constants of the i386 port ---

  const TRAP: Byte := 0xcc
  const MAX_THREADS_TRACED := 256
  const SYS_CLONE := 120
  const SYS_EXECVE := 11
  const SIGTRAP := 5
  const SIGSTOP := 19

  // --- state ---

  datatype Symbol = Symbol(name: string, enterAddr: Addr)

  /** A shadow call stack element. `call` is the serial number of the call that pushed it; nothing branches on it. */
  datatype Frame =
    | SyscallFrame(sysnum: int, call: nat)
    | FuncFrame(libfunc: Symbol, retAddr: Addr, call: nat)
  {
    function ReturnAddr(): (a: Addr) {
      if FuncFrame? then retAddr else 0
    }
  }

  datatype BpState = BpState(origValue: Byte, enabled: int)

  datatype ThreadState = ThreadState(tid: nat, callstack: seq<Frame>, beingEnabled: Option<Addr>)

  const FreeThread := ThreadState(0, [], None)

  /** What the log has received. `broke`: " <unfinished ...>" was written first, closing the open line.
      `joined`: the return was written on the open line, without "resumed". */
  datatype Item =
    | Left(tid: nat, depth: nat, call: nat, broke: bool)
    | Right(tid: nat, depth: nat, call: nat, broke: bool, joined: bool)
    | Line(broke: bool)

  datatype PrinterState = PrinterState(currentPid: nat, currentDepth: nat, items: seq<Item>)

  datatype Options = Options(showSyscalls: bool, countOnly: bool)

  /** `mode` is breakpoints_enabled: -1 not enabled yet, 0 disabled, 1 enabled. */
  datatype State = State(
    symbols: seq<Symbol>,
    pid: nat,
    mode: int,
    text: Text,
    breakpoints: map<Addr, BpState>,
    threads: seq<ThreadState>,
    printer: PrinterState,
    calls: nat)

  // --- the log (output.c, without -c nothing but the text itself is left out) ---

  function PrintLeft(p: PrinterState, o: Options, tid: nat, depth: nat, call: nat): PrinterState {
    if o.countOnly then p
    else PrinterState(tid, depth, p.items + [Left(tid, depth, call, p.currentPid != 0)])
  }

  function PrintRight(p: PrinterState, o: Options, tid: nat, depth: nat, call: nat): PrinterState {
    if o.countOnly then p
    else
      var broke := p.currentPid != 0 && (p.currentPid != tid || p.currentDepth != depth);
      var pid := if broke then 0 else p.currentPid;
      PrinterState(0, p.currentDepth, p.items + [Right(tid, depth, call, broke, pid == tid)])
  }

  function PrintLine(p: PrinterState, o: Options): PrinterState {
    if o.countOnly then p
    else PrinterState(0, p.currentDepth, p.items + [Line(p.currentPid != 0)])
  }

  // --- breakpoints (breakpoints.c) ---

  function EnableBp(s: State, a: Addr): State
    requires a in s.breakpoints
  {
    s.(text := Put(s.text, a, TRAP),
       breakpoints := s.breakpoints[a := s.breakpoints[a].(origValue := s.text[a])])
  }

  function DisableBp(s: State, a: Addr): State
    requires a in s.breakpoints
  {
    s.(text := Put(s.text, a, s.breakpoints[a].origValue))
  }

  function AddToCount(s: State, a: Addr, n: int): State
    requires a in s.breakpoints
  {
    s.(breakpoints := s.breakpoints[a := s.breakpoints[a].(enabled := s.breakpoints[a].enabled + n)])
  }

  function Insert(s: State, a: Addr): State {
    var s0 := if a in s.breakpoints then s else s.(breakpoints := s.breakpoints[a := BpState(0, 0)]);
    var s1 := AddToCount(s0, a, 1);
    if s1.breakpoints[a].enabled == 1 && s1.pid != 0 then EnableBp(s1, a) else s1
  }

  function Delete(s: State, a: Addr): Outcome<State> {
    if a !in s.breakpoints then Aborted
    else
      var s1 := AddToCount(s, a, -1);
      var s2 := if s1.breakpoints[a].enabled == 0 then DisableBp(s1, a) else s1;
      if s1.breakpoints[a].enabled >= 0 then Ok(s2) else Aborted
  }

  ghost function EnableAll(s: State): State {
    if s.mode <= 0 then
      s.(text := imap x: Addr | true ::
           if x in s.breakpoints && s.breakpoints[x].enabled != 0 then TRAP else assert Total(s.text); s.text[x],
         breakpoints := map a | a in s.breakpoints ::
           if s.breakpoints[a].enabled != 0 then s.breakpoints[a].(origValue := assert Total(s.text); s.text[a])
           else s.breakpoints[a],
         mode := 1)
    else s.(mode := 1)
  }

  ghost function DisableAll(s: State): State {
    if s.mode != 0 then
      s.(text := imap x: Addr | true ::
           if x in s.breakpoints && s.breakpoints[x].enabled != 0 then s.breakpoints[x].origValue
           else assert Total(s.text); s.text[x],
         mode := 0)
    else s
  }

  function InsertSymbols(s: State, symbols: seq<Symbol>): State
    decreases |symbols|
  {
    if symbols == [] then s else InsertSymbols(Insert(s, symbols[0].enterAddr), symbols[1..])
  }

  // --- threads (proc.c, wait_for_something.c) ---

  function SetThread(s: State, k: nat, th: ThreadState): State
    requires k < |s.threads|
  {
    s.(threads := s.threads[k := th])
  }

  /** The first slot from `i` on that holds `tid`, or the number of slots. */
  function FindTid(threads: seq<ThreadState>, tid: nat, i: nat): (k: nat)
    requires i <= |threads|
    ensures i <= k <= |threads|
    ensures k < |threads| ==> threads[k].tid == tid
    ensures forall j :: i <= j < k ==> threads[j].tid != tid
    decreases |threads| - i
  {
    if i == |threads| || threads[i].tid == tid then i else FindTid(threads, tid, i + 1)
  }

  /** The slot of the thread that stopped, registering it when it is new; None when the table is full. */
  function Locate(s: State, tid: nat): Option<(State, nat)> {
    var k := FindTid(s.threads, tid, 0);
    if k < |s.threads| then Some((s, k))
    else
      var free := FindTid(s.threads, 0, 0);
      if free < |s.threads| then Some((SetThread(s, free, s.threads[free].(tid := tid)), free)) else None
  }

  // --- shadow call stacks (process_event.c) ---

  predicate Full(th: ThreadState) {
    |th.callstack| == MAX_CALLDEPTH - 1
  }

  function PushFrame(s: State, k: nat, f: Frame): State
    requires k < |s.threads|
  {
    SetThread(s, k, s.threads[k].(callstack := s.threads[k].callstack + [f]))
  }

  function PushSyscall(s: State, k: nat, sysnum: int, call: nat): State
    requires k < |s.threads|
  {
    if Full(s.threads[k]) then s else PushFrame(s, k, SyscallFrame(sysnum, call))
  }

  function PushSymfunc(s: State, k: nat, sym: Symbol, ret: Addr, call: nat): State
    requires k < |s.threads|
  {
    if Full(s.threads[k]) then s else PushFrame(Insert(s, ret), k, FuncFrame(sym, ret, call))
  }

  function DropFrame(s: State, k: nat): State
    requires k < |s.threads| && s.threads[k].callstack != []
  {
    var th := s.threads[k];
    SetThread(s, k, th.(callstack := th.callstack[..|th.callstack| - 1]))
  }

  function Pop(s: State, k: nat): (r: Outcome<State>)
    requires k < |s.threads|
    ensures r.Ok? ==> |r.value.threads| == |s.threads|
    ensures r.Ok? ==> |r.value.threads[k].callstack| == |s.threads[k].callstack| - 1
  {
    var stack := s.threads[k].callstack;
    if stack == [] then Aborted
    else
      var top := stack[|stack| - 1];
      var s1 :- if top.FuncFrame? then Delete(s, top.retAddr) else Ok(s);
      Ok(DropFrame(s1, k))
  }

  /** Pops until `depth` frames are left. */
  function PopTo(s: State, k: nat, depth: nat): (r: Outcome<State>)
    requires k < |s.threads|
    ensures r.Ok? ==> |r.value.threads| == |s.threads|
    decreases |s.threads[k].callstack|
  {
    if |s.threads[k].callstack| <= depth then Ok(s)
    else
      var s1 :- Pop(s, k);
      PopTo(s1, k, depth)
  }

  /** The highest index below `n` whose frame returns to `a`, or -1. */
  function FindFrame(stack: seq<Frame>, a: Addr, n: nat): (i: int)
    requires n <= |stack|
    ensures -1 <= i < n
    ensures i >= 0 ==> stack[i].ReturnAddr() == a
    ensures forall j :: i < j < n ==> stack[j].ReturnAddr() != a
  {
    if n == 0 then -1
    else if stack[n - 1].ReturnAddr() == a then n - 1
    else FindFrame(stack, a, n - 1)
  }

  /** The index of the first symbol entered at `a`, or the number of symbols. */
  function FindSymbol(symbols: seq<Symbol>, a: Addr, i: nat): (j: nat)
    requires i <= |symbols|
    ensures i <= j <= |symbols|
    ensures j < |symbols| ==> symbols[j].enterAddr == a
    ensures forall m :: i <= m < j ==> symbols[m].enterAddr != a
    decreases |symbols| - i
  {
    if i == |symbols| || symbols[i].enterAddr == a then i else FindSymbol(symbols, a, i + 1)
  }

  // --- stops ---

  /** What waitpid reports, with the registers and the stacked return address of the stopped thread;
      `exiting` is the tracer's own flag at that moment. */
  datatype Stop =
    | Stopped(signum: int, sysnum: int, pc: Addr, ret: Addr, exiting: bool)
    | Exited
    | Killed
    | Other

  datatype Event =
    | Syscall(sysnum: int)
    | Sysret(sysnum: int)
    | ExitEvent
    | Unknown
    | Signal(signum: int, exiting: bool)
    | BreakpointHit(addr: Addr, ret: Addr)

  /** The address before the trap instruction's end; a 32-bit register wraps. */
  function DecrPc(pc: Addr): Addr {
    if pc == 0 then 0xffff_ffff else pc - 1
  }

  predicate TopIsSyscall(th: ThreadState, sysnum: int) {
    |th.callstack| > 0 && th.callstack[|th.callstack| - 1].SyscallFrame? &&
    th.callstack[|th.callstack| - 1].sysnum == sysnum
  }

  function Classify(th: ThreadState, stop: Stop): Event {
    match stop
    case Exited => ExitEvent
    case Killed => ExitEvent
    case Other => Unknown
    case Stopped(signum, sysnum, pc, ret, exiting) =>
      if signum != SIGTRAP then Signal(signum, exiting)
      else if TopIsSyscall(th, sysnum) then Sysret(sysnum)
      else if sysnum >= 0 then Syscall(sysnum)
      else BreakpointHit(DecrPc(pc), ret)
  }

  /** What is left after a stop: the session goes on, the process has been let go or has ended, the tracer
      exits, or the exec branch of process_sysret has been reached (what follows it is not modelled). */
  datatype Next = Running(s: State) | Gone(s: State) | Quit | ExecReturned

  // --- handlers (process_event.c) ---

  function WithPrinter(s: State, p: PrinterState): State {
    s.(printer := p)
  }

  ghost function HandleSyscall(s: State, o: Options, k: nat, sysnum: int): State
    requires k < |s.threads|
  {
    var th := s.threads[k];
    var s1 := if o.showSyscalls
              then WithPrinter(s, PrintLeft(s.printer, o, th.tid, |th.callstack|, s.calls)) else s;
    var s2 := if sysnum != SYS_CLONE && s1.mode == 0 then EnableAll(s1) else s1;
    var s3 := if sysnum != SYS_EXECVE then PushSyscall(s2, k, sysnum, s.calls) else s2;
    s3.(calls := s.calls + 1)
  }

  function HandleSysret(s: State, o: Options, k: nat): Outcome<State>
    requires k < |s.threads| && s.threads[k].callstack != []
  {
    var th := s.threads[k];
    var top := th.callstack[|th.callstack| - 1];
    var s1 :- Pop(s, k);
    Ok(if o.showSyscalls
       then WithPrinter(s1, PrintRight(s1.printer, o, th.tid, |th.callstack| - 1, top.call)) else s1)
  }

  function ContinueAfter(s: State, k: nat, a: Addr): Outcome<State>
    requires k < |s.threads|
  {
    if a !in s.breakpoints then Aborted
    else if s.breakpoints[a].enabled == 0 then Ok(s)
    else
      var s1 := DisableBp(s, a);
      Ok(SetThread(s1, k, s1.threads[k].(beingEnabled := Some(a))))
  }

  /** The trap that ends the single step over `a`: the breakpoint goes back in, whatever its count. */
  function Reinsert(s: State, k: nat, a: Addr): Outcome<State>
    requires k < |s.threads|
  {
    if a !in s.breakpoints then Aborted
    else Ok(SetThread(EnableBp(s, a), k, s.threads[k].(beingEnabled := None)))
  }

  /** A return to frame `i`, up to the point where the thread is continued. */
  function Returned(s: State, o: Options, k: nat, i: nat): (r: Outcome<State>)
    requires k < |s.threads| && i < |s.threads[k].callstack|
    ensures r.Ok? ==> |r.value.threads| == |s.threads|
  {
    var th := s.threads[k];
    var s1 :- PopTo(s, k, i + 1);
    var s2 :- Pop(s1, k);
    Ok(WithPrinter(s2, PrintRight(s2.printer, o, th.tid, i, th.callstack[i].call)))
  }

  function HandleReturn(s: State, o: Options, k: nat, i: nat, addr: Addr): Outcome<State>
    requires k < |s.threads| && i < |s.threads[k].callstack|
  {
    var s' :- Returned(s, o, k, i);
    ContinueAfter(s', k, addr)
  }

  /** A call, up to the point where the thread is continued. */
  function Called(s: State, o: Options, k: nat, sym: Symbol, ret: Addr): (s': State)
    requires k < |s.threads|
    ensures |s'.threads| == |s.threads|
  {
    var th := s.threads[k];
    var s1 := WithPrinter(s, PrintLeft(s.printer, o, th.tid, |th.callstack|, s.calls));
    PushSymfunc(s1, k, sym, ret, s.calls).(calls := s.calls + 1)
  }

  function HandleCall(s: State, o: Options, k: nat, sym: Symbol, ret: Addr): Outcome<State>
    requires k < |s.threads|
  {
    ContinueAfter(Called(s, o, k, sym, ret), k, sym.enterAddr)
  }

  function HandleBreakpoint(s: State, o: Options, k: nat, addr: Addr, ret: Addr): Outcome<State>
    requires k < |s.threads|
  {
    var th := s.threads[k];
    if th.beingEnabled.Some? then Reinsert(s, k, th.beingEnabled.value)
    else
      var i := FindFrame(th.callstack, addr, |th.callstack|);
      if i >= 0 then HandleReturn(s, o, k, i, addr)
      else
        var j := FindSymbol(s.symbols, addr, 0);
        if j < |s.symbols| then HandleCall(s, o, k, s.symbols[j], ret)
        else Ok(WithPrinter(s, PrintLine(s.printer, o)))
  }

  ghost function Handle(s: State, o: Options, k: nat, e: Event): Outcome<Next>
    requires k < |s.threads|
    requires e.Sysret? ==> s.threads[k].callstack != []
  {
    match e
    case Syscall(sysnum) => Ok(Running(HandleSyscall(s, o, k, sysnum)))
    case Sysret(sysnum) =>
      if sysnum == SYS_EXECVE then Ok(ExecReturned)
      else
        var s' :- HandleSysret(s, o, k);
        Ok(Running(s'))
    case ExitEvent => Ok(Gone(WithPrinter(s, PrintLine(s.printer, o))))
    case Unknown => Ok(Quit)
    case Signal(signum, exiting) =>
      if exiting && signum == SIGSTOP then Ok(Gone(DisableAll(s)))
      else Ok(Running(WithPrinter(s, PrintLine(s.printer, o))))
    case BreakpointHit(addr, ret) =>
      var s' :- HandleBreakpoint(s, o, k, addr, ret);
      Ok(Running(s'))
  }

  /** One round of the main loop: wait_for_something followed by process_event. */
  ghost function Step(s: State, o: Options, tid: nat, stop: Stop): Outcome<Next> {
    match Locate(s, tid)
    case None => Ok(Quit)
    case Some((s1, k)) =>
      if s1.mode == -1 then Ok(Running(EnableAll(s1)))
      else Handle(s1, o, k, Classify(s1.threads[k], stop))
  }

  /** A process structure before its breakpoints are entered. */
  function Unattached(symbols: seq<Symbol>, text: Text): State {
    State(symbols, 0, -1, text, map[], seq(MAX_THREADS_TRACED, _ => FreeThread), PrinterState(0, 0, []), 0)
  }

  /** open_program with no process yet, then the process id is filled in. */
  function Attach(symbols: seq<Symbol>, text: Text, pid: nat): State {
    InsertSymbols(Unattached(symbols, text), symbols).(pid := pid)
  }

  datatype Input = Input(tid: nat, stop: Stop)

  /** The session after the stops `inputs`, as long as it goes on. */
  ghost function Run(s: State, o: Options, inputs: seq<Input>): Outcome<Next>
    decreases |inputs|
  {
    if inputs == [] then Ok(Running(s))
    else
      var n :- Run(s, o, inputs[..|inputs| - 1]);
      match n
      case Running(s') => Step(s', o, inputs[|inputs| - 1].tid, inputs[|inputs| - 1].stop)
      case Gone(_) => Ok(n)
      case Quit => Ok(n)
      case ExecReturned => Ok(n)
  }
}
