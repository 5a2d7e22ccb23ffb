/** The log of a whole session: complete lines, and at most one open. */
module Session {
  import opened Base
  import opened Memory
  import opened Tracer
  import opened RefCounts
  import opened LogText
  import opened Process
  import F = SymbolFilter

  // --- names on the stacks are symbols' names ---

  ghost predicate Named(threads: seq<ThreadState>, symbols: seq<Symbol>) {
    forall k, i :: 0 <= k < |threads| && 0 <= i < |threads[k].callstack| && threads[k].callstack[i].FuncFrame? ==>
      threads[k].callstack[i].libfunc in symbols
  }

  /** Stacks that were cut or left alone, or got one frame of a symbol or a system call. */
  ghost predicate Moved(threads: seq<ThreadState>, threads': seq<ThreadState>, symbols: seq<Symbol>) {
    && |threads'| == |threads|
    && forall k :: 0 <= k < |threads| ==> StackMoved(threads[k].callstack, threads'[k].callstack, symbols)
  }

  ghost predicate StackMoved(stack: seq<Frame>, stack': seq<Frame>, symbols: seq<Symbol>) {
    || stack' <= stack
    || (|stack'| == |stack| + 1 && stack'[..|stack|] == stack &&
        (stack'[|stack|].FuncFrame? ==> stack'[|stack|].libfunc in symbols))
  }

  lemma MovedNamed(threads: seq<ThreadState>, threads': seq<ThreadState>, symbols: seq<Symbol>)
    requires Named(threads, symbols) && Moved(threads, threads', symbols)
    ensures Named(threads', symbols)
  {
    forall k, i | 0 <= k < |threads'| && 0 <= i < |threads'[k].callstack| && threads'[k].callstack[i].FuncFrame?
      ensures threads'[k].callstack[i].libfunc in symbols
    {
      var stack, stack' := threads[k].callstack, threads'[k].callstack;
      assert StackMoved(stack, stack', symbols);
      if i < |stack| {
        assert stack'[i] == stack[i];
      }
    }
  }

  /** A step changes stacks in no other way, and no symbols. */
  ghost predicate NextMoved(s: State, n: Next) {
    match n
    case Running(s') => s'.symbols == s.symbols && Moved(s.threads, s'.threads, s.symbols)
    case _ => true
  }

  lemma CalledMoves(s: State, o: Options, k: nat, j: nat, ret: Addr)
    requires k < |s.threads| && j < |s.symbols|
    ensures var s' := Called(s, o, k, s.symbols[j], ret);
      s'.symbols == s.symbols && Moved(s.threads, s'.threads, s.symbols)
  {
  }

  lemma TrapMoves(s: State, o: Options, k: nat, addr: Addr, ret: Addr)
    requires Inv(s) && k < |s.threads| && s.threads[k].tid != 0 && addr != 0
    requires HandleBreakpoint(s, o, k, addr, ret).Ok?
    ensures NextMoved(s, Running(HandleBreakpoint(s, o, k, addr, ret).value))
  {
    hide Inv, Called, Returned;
    var i := FindFrame(s.threads[k].callstack, addr, |s.threads[k].callstack|);
    var j := FindSymbol(s.symbols, addr, 0);
    if i >= 0 {
      ReturnedKeeps(s, o, k, i);
    } else if j < |s.symbols| {
      CalledMoves(s, o, k, j, ret);
    }
  }

  lemma QuietMoves(s: State, o: Options, k: nat, stop: Stop)
    requires Inv(s) && k < |s.threads| && s.threads[k].tid != 0 && !Classify(s.threads[k], stop).BreakpointHit?
    ensures var r := Handle(s, o, k, Classify(s.threads[k], stop)); r.Ok? ==> NextMoved(s, r.value)
  {
    match Classify(s.threads[k], stop)
    case Sysret(_) => SysretPopsItsCall(s, o, k, stop);
    case Syscall(_) =>
    case ExitEvent =>
    case Unknown =>
    case Signal(_, _) =>
  }

  lemma {:induction false} StepMoves(s: State, o: Options, tid: nat, stop: Stop)
    requires Inv(s) && RealStop(tid, stop)
    ensures Step(s, o, tid, stop).Ok? && NextMoved(s, Step(s, o, tid, stop).value)
  {
    hide Inv, Handle;
    StepKeeps(s, o, tid, stop);
    if Locate(s, tid).Some? {
      LocateKeeps(s, tid);
      var (s1, k) := Locate(s, tid).value;
      if s1.mode != -1 {
        HandleMoves(s1, o, k, stop);
      }
    }
  }

  lemma {:induction false} HandleMoves(s: State, o: Options, k: nat, stop: Stop)
    requires Inv(s) && k < |s.threads| && s.threads[k].tid != 0 && RealStop(s.threads[k].tid, stop)
    ensures var r := Handle(s, o, k, Classify(s.threads[k], stop)); r.Ok? ==> NextMoved(s, r.value)
  {
    hide Inv, HandleBreakpoint;
    var e := Classify(s.threads[k], stop);
    if e.BreakpointHit? {
      if HandleBreakpoint(s, o, k, e.addr, e.ret).Ok? {
        TrapMoves(s, o, k, e.addr, e.ret);
      }
    } else {
      QuietMoves(s, o, k, stop);
    }
  }

  // --- one event ---

  /** Nothing that is shown holds a line end. */
  ghost predicate PlainView(p: P.Printer, view: View)
    requires p.Valid()
  {
    && Plain(view.stamp) && Plain(view.time) && Plain(view.text) && PlainDisplay(None, view.show)
    && forall i :: 0 <= i < |p.functions| ==> PlainDisplay(Some(p.functions[i]), view.show)
  }

  ghost predicate PlainNames(symbols: seq<Symbol>) {
    forall i :: 0 <= i < |symbols| ==> Plain(symbols[i].name)
  }

  lemma LookupPlain(p: P.Printer, name: string, view: View)
    requires p.Valid() && PlainView(p, view)
    ensures Fits(P.Lookup(p.functions, name)) && PlainDisplay(P.Lookup(p.functions, name), view.show)
  {
  }

  lemma {:induction false} CallPenOk(p: P.Printer, pen: Pen, tid: nat, depth: nat, name: string, view: View)
    requires p.Valid() && LineOk(pen) && tid != 0 && PlainView(p, view) && Plain(name)
    ensures LineOk(CallPen(p, pen, tid, depth, name, view))
  {
    hide PlainDisplay, PlainView, LineOk, LeftPen, P.Lookup;
    LookupPlain(p, name, view);
    PlainParts(p, view);
    LeftKeepsLines(p.settings, pen, tid, depth, name, P.Lookup(p.functions, name), view.show, view.stamp);
  }

  lemma PlainParts(p: P.Printer, view: View)
    requires p.Valid() && PlainView(p, view)
    ensures Plain(view.stamp) && Plain(view.time) && Plain(view.text)
  {
  }

  lemma ReturnPenOk(p: P.Printer, pen: Pen, tid: nat, depth: nat, name: string, view: View)
    requires p.Valid() && LineOk(pen) && tid != 0 && PlainView(p, view) && Plain(name)
    ensures LineOk(ReturnPen(p, pen, tid, depth, name, view))
  {
    hide PlainDisplay, PlainView, LineOk, P.Lookup, RightText, ReturnValue;
    LookupPlain(p, name, view);
    PlainParts(p, view);
    if !p.settings.countOnly {
      var start, line := RightCompletesLine(p.settings, pen, tid, depth, name, P.Lookup(p.functions, name), view.show,
                                            view.time, view.stamp, view.spent);
    } else {
      LedgerAside(pen, pen.ledger + [Charge(name, view.spent.0, view.spent.1)]);
    }
  }

  lemma LedgerAside(pen: Pen, ledger: seq<Charge>)
    requires LineOk(pen)
    ensures LineOk(pen.(ledger := ledger))
  {
  }

  /** Each event leaves complete lines and at most one open. */
  lemma {:induction false} EventKeepsLines(p: P.Printer, pen: Pen, o: Options, symbols: seq<Symbol>,
                                           th: ThreadState, e: Event, view: View)
    requires p.Valid() && LineOk(pen) && th.tid != 0 && PlainView(p, view) && PlainNames(symbols)
    requires forall i :: 0 <= i < |th.callstack| && th.callstack[i].FuncFrame? ==> Plain(th.callstack[i].libfunc.name)
    ensures LineOk(EventPen(p, pen, o, symbols, th, e, view))
  {
    hide PlainView, LineOk, CallPen, ReturnPen;
    PlainParts(p, view);
    LineKeepsLines(p.settings, pen, LinePrefix(p.settings, th.tid, |th.callstack|, false, view.stamp), Some(view.text));
    CallPenOk(p, pen, th.tid, |th.callstack|, view.text, view);
    if th.callstack != [] {
      ReturnPenOk(p, pen, th.tid, |th.callstack| - 1, view.text, view);
    }
    if e.BreakpointHit? {
      var i := Tracer.FindFrame(th.callstack, e.addr, |th.callstack|);
      var j := Tracer.FindSymbol(symbols, e.addr, 0);
      if i >= 0 && th.callstack[i].FuncFrame? {
        ReturnPenOk(p, pen, th.tid, i, th.callstack[i].libfunc.name, view);
      }
      if j < |symbols| {
        CallPenOk(p, pen, th.tid, |th.callstack|, symbols[j].name, view);
      }
    }
  }

  // --- whole sessions ---

  datatype Round = Round(input: Input, view: View)

  function Inputs(rounds: seq<Round>): (inputs: seq<Input>)
    ensures |inputs| == |rounds| && forall i :: 0 <= i < |rounds| ==> inputs[i] == rounds[i].input
  {
    seq(|rounds|, i requires 0 <= i < |rounds| => rounds[i].input)
  }

  /** The log after `rounds` turns of the main loop. */
  ghost function Written(p: P.Printer, o: Options, start: State, rounds: seq<Round>): Pen
    requires p.Valid()
    decreases |rounds|
  {
    if rounds == [] then Pen(0, 0, 0, "", [])
    else
      var before, last := rounds[..|rounds| - 1], rounds[|rounds| - 1];
      var pen, r := Written(p, o, start, before), Run(start, o, Inputs(before));
      if r.Ok? && r.value.Running? then RoundPen(p, pen, o, r.value.s, last.input.tid, last.input.stop, last.view)
      else pen
  }

  lemma {:induction false} RoundKeepsLines(p: P.Printer, pen: Pen, o: Options, s: State, tid: nat,
                                           stop: Stop, view: View)
    requires p.Valid() && LineOk(pen) && tid != 0 && PlainView(p, view) && PlainNames(s.symbols)
    requires Inv(s) && Named(s.threads, s.symbols)
    ensures LineOk(RoundPen(p, pen, o, s, tid, stop, view))
  {
    hide PlainView, LineOk, EventPen, Inv;
    if Locate(s, tid).Some? {
      LocateKeeps(s, tid);
      var (s1, k) := Locate(s, tid).value;
      var stack := s1.threads[k].callstack;
      assert stack == s.threads[k].callstack;
      forall i | 0 <= i < |stack| && stack[i].FuncFrame? ensures Plain(stack[i].libfunc.name) {
        assert stack[i].libfunc in s.symbols;
      }
      EventKeepsLines(p, pen, o, s.symbols, s1.threads[k], Classify(s1.threads[k], stop), view);
    }
  }

  /** In every run, the functions on the stacks are kept symbols. */
  lemma {:induction false} RunNamed(symbols: seq<Symbol>, text: Text, pid: nat, o: Options, inputs: seq<Input>)
    requires RealStops(inputs)
    ensures AllNamed(Run(Attach(symbols, text, pid), o, inputs), symbols)
    decreases |inputs|
  {
    hide Inv, Step;
    var start := Attach(symbols, text, pid);
    if inputs == [] {
      InsertSymbolsElsewhere(Unattached(symbols, text), symbols);
    } else {
      var before, last := inputs[..|inputs| - 1], inputs[|inputs| - 1];
      RunNamed(symbols, text, pid, o, before);
      RunKeeps(symbols, text, pid, o, before);
      var n := Run(start, o, before).value;
      if n.Running? {
        StepMoves(n.s, o, last.tid, last.stop);
        var r := Step(n.s, o, last.tid, last.stop).value;
        if r.Running? {
          MovedNamed(n.s.threads, r.s.threads, symbols);
        }
      }
    }
  }

  ghost predicate AllNamed(r: Outcome<Next>, symbols: seq<Symbol>) {
    r.Ok? && r.value.Running? ==> r.value.s.symbols == symbols && Named(r.value.s.threads, symbols)
  }

  /** In every session, however stops interleave: the log is complete lines and, exactly while the printer's
      current_pid is set, one open line of current_column characters. */
  lemma {:induction false} RunKeepsLines(symbols: seq<Symbol>, text: Text, pid: nat, o: Options, p: P.Printer,
                                         rounds: seq<Round>)
    requires p.Valid() && PlainNames(symbols) && RealStops(Inputs(rounds))
    requires forall i :: 0 <= i < |rounds| ==> PlainView(p, rounds[i].view)
    ensures LineOk(Written(p, o, Attach(symbols, text, pid), rounds))
    decreases |rounds|
  {
    hide PlainView, LineOk, RoundPen, Inv, Step, Run, Attach;
    var start := Attach(symbols, text, pid);
    if rounds == [] {
      EmptyLog();
    } else {
      var before, last := rounds[..|rounds| - 1], rounds[|rounds| - 1];
      assert Inputs(before) == Inputs(rounds)[..|rounds| - 1];
      RunKeepsLines(symbols, text, pid, o, p, before);
      RunKeeps(symbols, text, pid, o, Inputs(before));
      RunNamed(symbols, text, pid, o, Inputs(before));
      var n := Run(start, o, Inputs(before)).value;
      if n.Running? {
        assert RealStop(Inputs(rounds)[|rounds| - 1].tid, last.input.stop);
        RoundKeepsLines(p, Written(p, o, start, before), o, n.s, last.input.tid, last.input.stop, last.view);
      }
    }
  }

  lemma EmptyLog()
    ensures LineOk(Pen(0, 0, 0, "", []))
  {
  }

  // --- the tracer at work ---

  /** Once the session is over nothing changes it. */
  ghost predicate Over(r: Outcome<Next>) {
    r.Ok? && !r.value.Running?
  }

  lemma OneMoreOver(start: State, o: Options, p: P.Printer, rounds: seq<Round>)
    requires p.Valid() && rounds != [] && Over(Run(start, o, Inputs(rounds[..|rounds| - 1])))
    ensures Run(start, o, Inputs(rounds)) == Run(start, o, Inputs(rounds[..|rounds| - 1]))
    ensures Written(p, o, start, rounds) == Written(p, o, start, rounds[..|rounds| - 1])
  {
    hide Step, RoundPen;
    assert Inputs(rounds)[..|rounds| - 1] == Inputs(rounds[..|rounds| - 1]);
  }

  lemma {:induction false} StaysOver(start: State, o: Options, p: P.Printer, rounds: seq<Round>, n: nat)
    requires p.Valid() && n <= |rounds| && Over(Run(start, o, Inputs(rounds[..n])))
    ensures Run(start, o, Inputs(rounds)) == Run(start, o, Inputs(rounds[..n]))
    ensures Written(p, o, start, rounds) == Written(p, o, start, rounds[..n])
    decreases |rounds|
  {
    hide Run, Written;
    if n == |rounds| {
      assert rounds[..n] == rounds;
    } else {
      var before := rounds[..|rounds| - 1];
      assert before[..n] == rounds[..n];
      StaysOver(start, o, p, before, n);
      OneMoreOver(start, o, p, rounds);
    }
  }

  lemma {:induction false} RunNext(start: State, o: Options, p: P.Printer, rounds: seq<Round>, n: nat, s: State)
    requires p.Valid() && n < |rounds| && Run(start, o, Inputs(rounds[..n])) == Ok(Running(s))
    ensures var x := rounds[n];
      && Run(start, o, Inputs(rounds[..n + 1])) == Step(s, o, x.input.tid, x.input.stop)
      && Written(p, o, start, rounds[..n + 1]) ==
         RoundPen(p, Written(p, o, start, rounds[..n]), o, s, x.input.tid, x.input.stop, x.view)
  {
    hide Step, RoundPen;
    var rs := rounds[..n + 1];
    assert rs[..n] == rounds[..n] && rs[n] == rounds[n];
    assert Inputs(rs)[..n] == Inputs(rounds[..n]);
  }

  /** The tracer's structures show what the run of the state machine has come to, and the printer its text. */
  ghost predicate ShowsRun(p: Process, start: State, rounds: seq<Round>, v: Verdict)
    requires p.printer.Valid()
    reads p, p.printer
  {
    && p.printer.ThePen() == Written(p.printer, p.options, start, rounds)
    && match Run(start, p.options, Inputs(rounds))
       case Ok(Running(s)) => v == GoesOn && p.model == s
       case Ok(Gone(s)) => v == LetGo && p.model == s
       case Ok(Quit) => v == Quits
       case _ => false
  }

  /** Starts a program and runs the main loop, for the stops `rounds` or until the session is over. */
  method Trace(symbols: seq<Symbol>, text: Text, pid: nat, options: Options, settings: Settings,
               functions: seq<Function>, rounds: seq<Round>) returns (p: Process, v: Verdict)
    requires settings.countOnly == options.countOnly && P.AllFit(functions) && RealStops(Inputs(rounds))
    ensures p.Valid() && p.options == options && p.printer.settings == settings && p.printer.functions == functions
    ensures ShowsRun(p, Attach(symbols, text, pid), rounds, v)
  {
    hide Step, RoundPen, Inv, Process.Valid, Attach;
    p := Open(symbols, text, pid, options, settings, functions);
    v := GoesOn;
    ghost var start := Attach(symbols, text, pid);
    var i := 0;
    assert rounds[..0] == [];
    while i < |rounds| && v == GoesOn
      invariant i <= |rounds| && p.Valid() && fresh(p.Footprint())
      invariant v != Quits ==> Inv(p.model)
      invariant ShowsRun(p, start, rounds[..i], v)
    {
      RunNext(start, options, p.printer, rounds, i, p.model);
      assert RealStop(rounds[i].input.tid, rounds[i].input.stop) by {
        assert Inputs(rounds)[i] == rounds[i].input;
      }
      v := p.Round(rounds[i].input.tid, rounds[i].input.stop, rounds[i].view);
      i := i + 1;
    }
    if v == GoesOn {
      assert rounds[..i] == rounds;
    } else {
      StaysOver(start, options, p.printer, rounds, i);
    }
  }

  /** open_program; execute_program then fills in the process id. */
  method Open(symbols: seq<Symbol>, text: Text, pid: nat, options: Options, settings: Settings,
              functions: seq<Function>) returns (p: Process)
    requires settings.countOnly == options.countOnly && P.AllFit(functions)
    ensures p.Valid() && fresh(p.Footprint()) && Inv(p.model) && p.model == Attach(symbols, text, pid)
    ensures p.options == options && p.printer.settings == settings && p.printer.functions == functions
    ensures p.printer.ThePen() == Pen(0, 0, 0, "", [])
  {
    hide Inv, Process.Valid;
    p := new Process(symbols, text, options, settings, functions);
    p.BreakpointsInit();
    p.SetPid(pid);
    AttachInv(symbols, text, pid);
  }

  /** What is traced of a program: its functions, or with -e those the option selects. */
  ghost function Chosen(elf: seq<F.ElfSymbol>, option: Option<string>): seq<Symbol> {
    if option == None then F.Functions(elf) else F.Selected(F.Functions(elf), option.value)
  }

  /** From the program's symbol table to the end of the session; `optarg` is the option -e, if given. */
  method TraceProgram(elf: seq<F.ElfSymbol>, optarg: array?<char>, text: Text, pid: nat, options: Options,
                      settings: Settings, functions: seq<Function>, rounds: seq<Round>)
    returns (p: Process, v: Verdict)
    requires settings.countOnly == options.countOnly && P.AllFit(functions) && RealStops(Inputs(rounds))
    requires forall i :: 0 <= i < |elf| ==> F.NUL !in elf[i].name
    requires optarg != null ==> F.Terminated(optarg[..])
    modifies optarg
    ensures p.Valid() && p.options == options && p.printer.settings == settings && p.printer.functions == functions
    ensures ShowsRun(p, Attach(Chosen(elf, if optarg == null then None else Some(old(F.CString(optarg[..], 0)))),
                               text, pid), rounds, v)
  {
    hide Run, Written, Process.Valid, Attach, F.SymbolList.Valid, F.Functions, F.Selected, F.CString;
    var list := F.ReadElf(elf);
    if optarg != null {
      F.Select(optarg, list);
    }
    var symbols := list.Symbols();
    p, v := Trace(symbols, text, pid, options, settings, functions, rounds);
  }

  /** Exactly the traceable functions are chosen, or with an option those of them whose name is between its commas, or
      behind a '!' those whose name is not. */
  lemma {:induction false} ChosenExactly(elf: seq<F.ElfSymbol>, option: Option<string>, sym: Symbol)
    ensures sym in Chosen(elf, option) <==>
      && (exists i :: 0 <= i < |elf| && F.Traceable(elf[i]) && sym == Symbol(elf[i].name, elf[i].value))
      && match option
         case None => true
         case Some(s) => F.Listed(s) == "" || (sym.name in F.Tokens(F.Listed(s)) <==> !F.Negated(s))
  {
    hide F.Functions, F.Selected, F.Traceable, F.Tokens, F.Listed;
    F.FunctionsAre(elf, sym);
    if option.Some? {
      F.ExpressionSelects(option.value, F.Functions(elf), sym);
    }
  }

  /** What completeness asks of a set-up holds of every program: no traced function is entered at address zero. */
  lemma ChosenEntered(elf: seq<F.ElfSymbol>, option: Option<string>, j: nat)
    requires j < |Chosen(elf, option)|
    ensures Chosen(elf, option)[j].enterAddr != 0
  {
    hide F.Functions, F.Selected;
    F.SelectedEntered(elf, if option == None then "" else option.value, Chosen(elf, option)[j]);
  }

  /** open_pid also registers the process id as a thread's. When that thread is the first to stop, nothing differs. */
  lemma RegisteredEarly(symbols: seq<Symbol>, text: Text, pid: nat, o: Options, stop: Stop)
    requires pid != 0
    ensures var start := Attach(symbols, text, pid);
      && |start.threads| == MAX_THREADS_TRACED
      && Step(SetThread(start, 0, start.threads[0].(tid := pid)), o, pid, stop) == Step(start, o, pid, stop)
  {
    hide Handle, EnableAll;
    InsertSymbolsElsewhere(Unattached(symbols, text), symbols);
    var start := Attach(symbols, text, pid);
    assert start.threads[0] == FreeThread;
    assert FindTid(start.threads, pid, 0) == MAX_THREADS_TRACED && FindTid(start.threads, 0, 0) == 0;
    assert FindTid(SetThread(start, 0, start.threads[0].(tid := pid)).threads, pid, 0) == 0;
  }
}
