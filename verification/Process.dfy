/** One traced process: its breakpoints, its threads with their shadow call stacks, and the log (process_event.c,
    wait_for_something.c). Every handler is proved to take the step its counterpart takes on states. */
module Process {
  import opened Base
  import opened Memory
  import opened Tracer
  import opened RefCounts
  import B = Breakpoints
  import LogText
  import P = Printer
  import Patch
  import T = Threads

  /** What the prints need besides the state: argument and return texts, elapsed time as text, time stamp, the
      system call's name or the message, and the elapsed seconds and microseconds charged to a return. */
  datatype View = View(show: LogText.Display, time: string, stamp: string, text: string, spent: (nat, nat))

  /** Whether the session goes on after a stop, the process has been let go or has ended, or the tracer exits. */
  datatype Verdict = GoesOn | LetGo | Quits

  /** Enabling or disabling everything touches neither threads nor log. */
  lemma EnableAllElsewhere(s: State)
    ensures var s' := Tracer.EnableAll(s); s' == s.(text := s'.text, breakpoints := s'.breakpoints, mode := s'.mode)
    ensures var s' := Tracer.DisableAll(s); s' == s.(text := s'.text, mode := s'.mode)
    ensures Tracer.EnableAll(s).breakpoints.Keys == s.breakpoints.Keys
  {
  }

  lemma EventFacts(s: State, k: nat, tid: nat, stop: Stop)
    requires Inv(s) && k < |s.threads| && s.threads[k].tid == tid && RealStop(tid, stop)
    ensures var e := Classify(s.threads[k], stop);
      && (e.Sysret? ==> s.threads[k].callstack != [] && e.sysnum != SYS_EXECVE)
      && (e.BreakpointHit? ==> e.addr != 0)
  {
    if Classify(s.threads[k], stop).Sysret? {
      assert FrameOk(s.threads[k].callstack[|s.threads[k].callstack| - 1]);
    }
  }

  /** Entering breakpoints touches neither threads nor log. */
  lemma {:induction false} InsertSymbolsElsewhere(s: State, symbols: seq<Symbol>)
    ensures var s' := InsertSymbols(s, symbols);
      s' == s.(text := s'.text, breakpoints := s'.breakpoints)
    decreases |symbols|
  {
    if symbols != [] {
      InsertSymbolsElsewhere(Insert(s, symbols[0].enterAddr), symbols[1..]);
    }
  }

  // --- what is written ---

  ghost function CallPen(p: P.Printer, pen: LogText.Pen, tid: nat, depth: nat, name: string, view: View): LogText.Pen
    requires p.Valid()
  {
    LogText.LeftPen(p.settings, pen, tid, depth, name, P.Lookup(p.functions, name), view.show, view.stamp)
  }

  ghost function ReturnPen(p: P.Printer, pen: LogText.Pen, tid: nat, depth: nat, name: string, view: View): LogText.Pen
    requires p.Valid()
  {
    LogText.RightPen(p.settings, pen, tid, depth, name, P.Lookup(p.functions, name), view.show, view.time, view.stamp,
                     view.spent)
  }

  ghost function TextPen(p: P.Printer, pen: LogText.Pen, tid: nat, depth: nat, view: View): LogText.Pen {
    LogText.LinePen(p.settings, pen, LogText.LinePrefix(p.settings, tid, depth, false, view.stamp), Some(view.text))
  }

  /** A trap's text: nothing at the end of a step, the returning function's name, the called one's, or a message. */
  ghost function TrapPen(p: P.Printer, pen: LogText.Pen, symbols: seq<Symbol>, th: ThreadState, addr: Addr, view: View)
    : LogText.Pen
    requires p.Valid()
  {
    var i := Tracer.FindFrame(th.callstack, addr, |th.callstack|);
    var j := Tracer.FindSymbol(symbols, addr, 0);
    if th.beingEnabled.Some? then pen
    else if i >= 0 && th.callstack[i].FuncFrame? then ReturnPen(p, pen, th.tid, i, th.callstack[i].libfunc.name, view)
    else if j < |symbols| then CallPen(p, pen, th.tid, |th.callstack|, symbols[j].name, view)
    else TextPen(p, pen, th.tid, |th.callstack|, view)
  }

  /** What an event of thread `th` adds to the log. */
  ghost function EventPen(p: P.Printer, pen: LogText.Pen, o: Options, symbols: seq<Symbol>, th: ThreadState, e: Event,
                          view: View): LogText.Pen
    requires p.Valid()
  {
    match e
    case Syscall(_) => if o.showSyscalls then CallPen(p, pen, th.tid, |th.callstack|, view.text, view) else pen
    case Sysret(_) =>
      if o.showSyscalls && th.callstack != [] then ReturnPen(p, pen, th.tid, |th.callstack| - 1, view.text, view)
      else pen
    case ExitEvent => TextPen(p, pen, th.tid, |th.callstack|, view)
    case Unknown => pen
    case Signal(signum, exiting) =>
      if exiting && signum == SIGSTOP then pen else TextPen(p, pen, th.tid, |th.callstack|, view)
    case BreakpointHit(addr, _) => TrapPen(p, pen, symbols, th, addr, view)
  }

  /** What one round of the main loop adds to the log. */
  ghost function RoundPen(p: P.Printer, pen: LogText.Pen, o: Options, s: State, tid: nat, stop: Stop, view: View)
    : LogText.Pen
    requires p.Valid()
  {
    match Tracer.Locate(s, tid)
    case None => pen
    case Some((s1, k)) =>
      if s1.mode == -1 then pen
      else EventPen(p, pen, o, s1.symbols, s1.threads[k], Classify(s1.threads[k], stop), view)
  }

  class Process {
    const symbols: seq<Symbol>
    const options: Options
    const bp: B.Breakpoints
    const table: T.ThreadTable
    const printer: P.Printer
    var calls: nat
    ghost var model: State

    /** The parts share no objects. */
    ghost predicate Separate()
      reads bp, bp.table
    {
      && bp.TableObjects() + bp.objects + {bp} !! table.objects + {table, printer, this}
      && {table, printer, this, bp} !! table.objects
      && table.Owns()
    }

    /** The breakpoint a thread is stepping over is in the dictionary. */
    ghost predicate Links()
      reads bp`bps, table.threads
    {
      forall i :: 0 <= i < |table.threads| && table.threads[i].beingEnabled != null ==>
        bp.Has(table.threads[i].beingEnabled)
    }

    ghost predicate PrinterShows(p: PrinterState)
      reads printer
    {
      printer.Valid() && printer.State() == p && printer.settings.countOnly == options.countOnly
    }

    ghost predicate Shows(s: State)
      reads this`calls, bp, bp.objects, bp.table, bp.TableObjects(), table, table.objects, table.threads, printer
    {
      && Separate() && Links() && bp.Shows(s) && table.Shows(s.threads) && PrinterShows(s.printer)
      && symbols == s.symbols && calls == s.calls
    }

    ghost function Footprint(): set<object>
      reads this, bp, bp.table
    {
      {this, bp, table, printer} + bp.objects + bp.TableObjects() + table.objects
    }

    ghost predicate Valid()
      reads this, Footprint(), bp.table, table.threads
    {
      Shows(model)
    }

    /** What the representation says about one thread. */
    lemma ThreadFacts(k: nat)
      requires Valid() && k < |model.threads|
      ensures |model.threads| == |table.threads| && bp !in bp.objects
      ensures table.threads[k].Shows(model.threads[k])
      ensures table.threads[k] in table.objects && table.threads[k].callstack in table.objects
    {
    }

    lemma BreakpointFacts()
      requires Valid()
      ensures bp !in bp.objects && bp.pid == model.pid && bp.mode == model.mode
      ensures printer !in bp.objects && printer !in bp.TableObjects()
      ensures bp.TableObjects() !! bp.objects && (bp.table != null ==> bp.table in bp.TableObjects())
      ensures model.breakpoints.Keys == bp.bps.Keys
      ensures forall a :: a in model.breakpoints ==>
        bp.table != null && a in bp.bps && bp.bps[a].enabled == model.breakpoints[a].enabled && bp.Reaches(bp.bps[a])
    {
    }

    /** A thread-table change. */
    lemma ThreadsChanged(s: State, s': State)
      requires Separate() && Links() && bp.Shows(s) && table.Shows(s'.threads) && PrinterShows(s.printer)
      requires symbols == s.symbols && calls == s.calls
      requires s' == s.(threads := s'.threads)
      ensures Shows(s')
    {
      bp.ShowsSame(s, s');
    }

    constructor (symbols: seq<Symbol>, text: Text, options: Options, settings: LogText.Settings,
                 functions: seq<LogText.Function>)
      requires settings.countOnly == options.countOnly && P.AllFit(functions)
      ensures Valid() && this.symbols == symbols && this.options == options && fresh(Footprint())
      ensures printer.settings == settings && printer.functions == functions
      ensures model == Unattached(symbols, text) && printer.ThePen() == LogText.Pen(0, 0, 0, "", [])
    {
      hide B.Breakpoints.Shows, T.ThreadTable.Shows, P.AllFit;
      var b := new B.Breakpoints(text, Unattached(symbols, text));
      var t := new T.ThreadTable();
      var p := new P.Printer(settings, functions);
      this.symbols, this.options, bp, table, printer, calls := symbols, options, b, t, p, 0;
      model := Unattached(symbols, text);
    }

    /** The kept symbols' breakpoints are entered and counted; with no process yet, nothing is planted. */
    method BreakpointsInit()
      requires Valid()
      modifies this`model, bp, bp.objects, bp.TableObjects()
      ensures Valid() && model == InsertSymbols(old(model), symbols) && fresh(Footprint() - old(Footprint()))
      ensures printer.ThePen() == old(printer.ThePen())
    {
      hide B.Breakpoints.Shows, T.ThreadTable.Shows;
      BreakpointFacts();
      bp.InsertAll(symbols, model);
      InsertSymbolsElsewhere(model, symbols);
      model := InsertSymbols(model, symbols);
    }

    /** The process id becomes known. */
    method SetPid(pid: nat)
      requires Valid()
      modifies this`model, bp`pid
      ensures Valid() && model == old(model).(pid := pid) && Footprint() == old(Footprint())
    {
      bp.SetPid(pid, model);
      model := model.(pid := pid);
    }

    // --- shadow call stacks ---

    method PushFrame(k: nat, f: Frame)
      requires Valid() && k < |model.threads| && !Full(model.threads[k])
      modifies this`model, table.threads[k], table.threads[k].callstack
      ensures Valid() && model == Tracer.PushFrame(old(model), k, f)
    {
      hide B.Breakpoints.Shows, T.ThreadTable.Shows;
      ThreadFacts(k);
      ghost var s := model;
      table.Push(k, f, s.threads);
      model := Tracer.PushFrame(s, k, f);
      ThreadsChanged(s, model);
    }

    method DropFrame(k: nat)
      requires Valid() && k < |model.threads| && model.threads[k].callstack != []
      modifies this`model, table.threads[k]
      ensures Valid() && model == Tracer.DropFrame(old(model), k) && Footprint() == old(Footprint())
    {
      hide B.Breakpoints.Shows, T.ThreadTable.Shows;
      ThreadFacts(k);
      ghost var s := model;
      table.Drop(k, s.threads);
      model := Tracer.DropFrame(s, k);
      ThreadsChanged(s, model);
    }

    method CallstackPushSyscall(k: nat, sysnum: int)
      requires Valid() && k < |model.threads|
      modifies Footprint() - {printer}
      ensures Valid() && model == Tracer.PushSyscall(old(model), k, sysnum, old(calls))
      ensures Footprint() == old(Footprint())
    {
      hide B.Breakpoints.Shows, T.ThreadTable.Shows, Separate, Links;
      ThreadFacts(k);
      if table.threads[k].depth == MAX_CALLDEPTH - 1 {
        return;
      }
      PushFrame(k, SyscallFrame(sysnum, calls));
    }

    method CallstackPushSymfunc(k: nat, sym: Symbol, ret: Addr)
      requires Valid() && k < |model.threads|
      modifies Footprint() - {printer}
      ensures Valid() && model == Tracer.PushSymfunc(old(model), k, sym, ret, old(calls))
      ensures fresh(Footprint() - old(Footprint()))
    {
      hide B.Breakpoints.Shows, T.ThreadTable.Shows, Separate, Links;
      ThreadFacts(k);
      if table.threads[k].depth == MAX_CALLDEPTH - 1 {
        return;
      }
      BreakpointFacts();
      InsertBreakpoint(ret);
      PushFrame(k, FuncFrame(sym, ret, calls));
    }

    method InsertBreakpoint(addr: Addr)
      requires Valid()
      modifies this`model, bp, bp.objects, bp.TableObjects()
      ensures Valid() && model == Tracer.Insert(old(model), addr)
      ensures fresh(Footprint() - old(Footprint()))
    {
      hide B.Breakpoints.Shows, T.ThreadTable.Shows;
      bp.Insert(addr, model);
      model := Tracer.Insert(model, addr);
    }

    method DeleteBreakpoint(addr: Addr)
      requires Valid() && Tracer.Delete(model, addr).Ok?
      modifies this`model, bp.objects
      ensures Valid() && model == Tracer.Delete(old(model), addr).value && Footprint() == old(Footprint())
    {
      hide B.Breakpoints.Shows, T.ThreadTable.Shows;
      BreakpointFacts();
      bp.Delete(addr, model);
      model := Tracer.Delete(model, addr).value;
    }

    /** callstack_pop, where its assertion and those of delete_breakpoint hold. */
    method CallstackPop(k: nat)
      requires Valid() && k < |model.threads| && Tracer.Pop(model, k).Ok?
      modifies Footprint() - {printer}
      ensures Valid() && model == Tracer.Pop(old(model), k).value
      ensures Footprint() == old(Footprint()) && table.threads[k].callstack[..] == old(table.threads[k].callstack[..])
    {
      hide B.Breakpoints.Shows, T.ThreadTable.Shows, Links;
      ThreadFacts(k);
      var thr := table.threads[k];
      var elem := thr.callstack[thr.depth - 1];
      if elem.FuncFrame? {
        DeleteBreakpoint(elem.retAddr);
      }
      DropFrame(k);
    }

    /** Pops until `depth` frames are left. */
    method CallstackPopTo(k: nat, depth: nat)
      requires Valid() && k < |model.threads| && Tracer.PopTo(model, k, depth).Ok?
      modifies Footprint() - {printer}
      ensures Valid() && model == Tracer.PopTo(old(model), k, depth).value
      ensures Footprint() == old(Footprint()) && table.threads[k].callstack[..] == old(table.threads[k].callstack[..])
    {
      hide B.Breakpoints.Shows, T.ThreadTable.Shows, Separate, Links;
      ThreadFacts(k);
      while table.threads[k].depth > depth
        invariant Valid() && k < |model.threads| && Footprint() == old(Footprint())
        invariant table.threads[k].Shows(model.threads[k])
        invariant Tracer.PopTo(model, k, depth) == Tracer.PopTo(old(model), k, depth)
        invariant table.threads[k].callstack[..] == old(table.threads[k].callstack[..])
        decreases table.threads[k].depth
      {
        CallstackPop(k);
        ThreadFacts(k);
      }
    }

    // --- stepping over a breakpoint ---

    method Lift(sbp: Patch.Breakpoint)
      requires Valid() && bp.Has(sbp)
      modifies this`model, bp.objects
      ensures Valid() && model == Tracer.DisableBp(old(model), sbp.addr) && Footprint() == old(Footprint())
      ensures bp.Has(sbp) && sbp.enabled == old(sbp.enabled)
    {
      hide B.Breakpoints.Shows, T.ThreadTable.Shows;
      BreakpointFacts();
      assert bp.Reaches(bp.bps[sbp.addr]);
      bp.DisableBp(sbp, model);
      model := Tracer.DisableBp(model, sbp.addr);
    }

    method Plant(sbp: Patch.Breakpoint)
      requires Valid() && bp.Has(sbp)
      modifies this`model, bp.objects
      ensures Valid() && model == Tracer.EnableBp(old(model), sbp.addr) && Footprint() == old(Footprint())
    {
      hide B.Breakpoints.Shows, T.ThreadTable.Shows;
      BreakpointFacts();
      assert bp.Reaches(bp.bps[sbp.addr]);
      bp.EnableBp(sbp, model);
      model := Tracer.EnableBp(model, sbp.addr);
    }

    method SetStep(k: nat, sbp: Patch.Breakpoint?)
      requires Valid() && k < |model.threads| && (sbp != null ==> bp.Has(sbp))
      modifies this`model, table.threads[k]
      ensures Valid() && Footprint() == old(Footprint())
      ensures model == SetThread(old(model), k,
        old(model).threads[k].(beingEnabled := if sbp == null then None else Some(sbp.addr)))
    {
      hide B.Breakpoints.Shows, T.ThreadTable.Shows;
      ThreadFacts(k);
      ghost var s := model;
      table.SetStep(k, sbp, s.threads);
      model := SetThread(s, k, s.threads[k].(beingEnabled := if sbp == null then None else Some(sbp.addr)));
      ThreadsChanged(s, model);
    }

    method ContinueAfterBreakpoint(k: nat, addr: Addr)
      requires Valid() && k < |model.threads| && Tracer.ContinueAfter(model, k, addr).Ok?
      modifies Footprint() - {printer}
      ensures Valid() && model == Tracer.ContinueAfter(old(model), k, addr).value && Footprint() == old(Footprint())
    {
      hide T.ThreadTable.Shows, Separate, Links;
      BreakpointFacts();
      ThreadFacts(k);
      var sbp := bp.Find(addr, model);
      hide B.Breakpoints.Shows;
      if sbp.enabled != 0 {
        Lift(sbp);
      }
      if sbp.enabled != 0 {
        SetStep(k, sbp);
      }
    }

    /** The end of a single step: continue_enabling_breakpoint. */
    method ReinsertBreakpoint(k: nat)
      requires Valid() && k < |model.threads| && model.threads[k].beingEnabled.Some?
      requires Tracer.Reinsert(model, k, model.threads[k].beingEnabled.value).Ok?
      modifies Footprint() - {printer}
      ensures Valid() && model == Tracer.Reinsert(old(model), k, old(model).threads[k].beingEnabled.value).value
      ensures Footprint() == old(Footprint())
    {
      ThreadFacts(k);
      BreakpointFacts();
      var sbp := table.threads[k].beingEnabled;
      assert bp.Has(sbp);
      hide B.Breakpoints.Shows, T.ThreadTable.Shows, Separate, Links;
      Plant(sbp);
      SetStep(k, null);
    }

    // --- printing ---

    method PrintCall(k: nat, name: string, view: View)
      requires Valid() && k < |model.threads|
      modifies this`model, printer
      ensures Valid() && Footprint() == old(Footprint())
      ensures var th := old(model).threads[k];
        && model == WithPrinter(old(model), PrintLeft(old(model).printer, options, th.tid, |th.callstack|, calls))
        && printer.ThePen() == CallPen(printer, old(printer.ThePen()), th.tid, |th.callstack|, name, view)
    {
      hide B.Breakpoints.Shows, T.ThreadTable.Shows, LogText.LeftPen, LogText.RightPen, LogText.LinePen;
      ThreadFacts(k);
      var thr := table.threads[k];
      printer.OutputLeft(thr.tid, thr.depth, name, view.show, view.stamp, options, calls);
      ghost var s := model;
      model := WithPrinter(s, PrintLeft(s.printer, options, thr.tid, thr.depth, calls));
      bp.ShowsSame(s, model);
    }

    method PrintReturn(k: nat, name: string, view: View, ghost call: nat)
      requires Valid() && k < |model.threads| && model.threads[k].tid != 0
      modifies this`model, printer
      ensures Valid() && Footprint() == old(Footprint())
      ensures var th := old(model).threads[k];
        && model == WithPrinter(old(model), PrintRight(old(model).printer, options, th.tid, |th.callstack|, call))
        && printer.ThePen() == ReturnPen(printer, old(printer.ThePen()), th.tid, |th.callstack|, name, view)
    {
      hide B.Breakpoints.Shows, T.ThreadTable.Shows, LogText.LeftPen, LogText.RightPen, LogText.LinePen;
      ThreadFacts(k);
      var thr := table.threads[k];
      printer.OutputRight(thr.tid, thr.depth, name, view.show, view.time, view.stamp, view.spent, options, call);
      ghost var s := model;
      model := WithPrinter(s, PrintRight(s.printer, options, thr.tid, thr.depth, call));
      bp.ShowsSame(s, model);
    }

    method PrintText(k: nat, view: View)
      requires Valid() && k < |model.threads|
      modifies this`model, printer
      ensures Valid() && Footprint() == old(Footprint())
      ensures model == WithPrinter(old(model), PrintLine(old(model).printer, options))
      ensures var th := old(model).threads[k];
        printer.ThePen() == TextPen(printer, old(printer.ThePen()), th.tid, |th.callstack|, view)
    {
      hide B.Breakpoints.Shows, T.ThreadTable.Shows, LogText.LeftPen, LogText.RightPen, LogText.LinePen;
      ThreadFacts(k);
      var thr := table.threads[k];
      printer.OutputLine(Some((thr.tid, thr.depth)), Some(view.text), view.stamp, options);
      ghost var s := model;
      model := WithPrinter(s, PrintLine(s.printer, options));
      bp.ShowsSame(s, model);
    }

    method CountCall()
      requires Valid()
      modifies this`model, this`calls
      ensures Valid() && model == old(model).(calls := old(calls) + 1) && Footprint() == old(Footprint())
    {
      hide B.Breakpoints.Shows, T.ThreadTable.Shows;
      ghost var s := model;
      calls := calls + 1;
      model := s.(calls := calls);
      bp.ShowsSame(s, model);
    }

    // --- handlers ---

    /** The scan of process_breakpoint for the frame a trap returns to. */
    method FindFrame(k: nat, addr: Addr) returns (i: int)
      requires Valid() && k < |model.threads|
      ensures i == Tracer.FindFrame(model.threads[k].callstack, addr, |model.threads[k].callstack|)
    {
      hide B.Breakpoints.Shows, T.ThreadTable.Shows, Separate, Links;
      ThreadFacts(k);
      var thr := table.threads[k];
      ghost var stack := model.threads[k].callstack;
      i := thr.depth - 1;
      while i >= 0
        invariant -1 <= i < |stack|
        invariant Tracer.FindFrame(stack, addr, |stack|) == Tracer.FindFrame(stack, addr, i + 1)
      {
        assert thr.callstack[i] == stack[i];
        if addr == thr.callstack[i].ReturnAddr() {
          return;
        }
        i := i - 1;
      }
    }

    /** The walk of process_breakpoint along the symbols. */
    method FindSymbol(addr: Addr) returns (j: nat)
      ensures j == Tracer.FindSymbol(symbols, addr, 0)
    {
      j := 0;
      while j < |symbols| && symbols[j].enterAddr != addr
        invariant 0 <= j <= |symbols| && Tracer.FindSymbol(symbols, addr, 0) == Tracer.FindSymbol(symbols, addr, j)
      {
        j := j + 1;
      }
    }

    /** The unwinding of a return to frame `i`: the frames above it, then the frame itself. */
    method Unwind(k: nat, i: nat)
      requires Valid() && Inv(model) && k < |model.threads| && model.threads[k].tid != 0
      requires i < |model.threads[k].callstack|
      modifies Footprint() - {printer}
      ensures Valid() && Footprint() == old(Footprint())
      ensures Tracer.PopTo(old(model), k, i + 1).Ok? && Tracer.Pop(Tracer.PopTo(old(model), k, i + 1).value, k).Ok?
      ensures model == Tracer.Pop(Tracer.PopTo(old(model), k, i + 1).value, k).value
      ensures k < |model.threads| && model.threads[k].tid == old(model).threads[k].tid
      ensures |model.threads[k].callstack| == i
      ensures table.threads[k].callstack[..] == old(table.threads[k].callstack[..])
    {
      hide B.Breakpoints.Shows, T.ThreadTable.Shows, Separate, Links, Inv;
      PopToKeeps(model, k, i + 1);
      CallstackPopTo(k, i + 1);
      PopKeeps(model, k);
      CallstackPop(k);
    }

    /** The unwinding and printing of a return to frame `i`. */
    method ReturnFrom(k: nat, i: nat, view: View)
      requires Valid() && Inv(model) && k < |model.threads| && model.threads[k].tid != 0
      requires i < |model.threads[k].callstack| && model.threads[k].callstack[i].FuncFrame?
      modifies Footprint()
      ensures Valid() && Footprint() == old(Footprint()) && Tracer.Returned(old(model), options, k, i).Ok?
      ensures model == Tracer.Returned(old(model), options, k, i).value
      ensures var th := old(model).threads[k];
        printer.ThePen() == ReturnPen(printer, old(printer.ThePen()), th.tid, i, th.callstack[i].libfunc.name, view)
    {
      hide B.Breakpoints.Shows, T.ThreadTable.Shows, Separate, Links, Inv, Tracer.PopTo, Tracer.Pop;
      ThreadFacts(k);
      ghost var frame := model.threads[k].callstack[i];
      assert table.threads[k].callstack[..][i] == frame;
      Unwind(k, i);
      ThreadFacts(k);
      var elem := table.threads[k].callstack[i];
      assert elem == table.threads[k].callstack[..][i];
      PrintReturn(k, elem.libfunc.name, view, elem.call);
    }

    method ProcessReturn(k: nat, i: nat, addr: Addr, view: View)
      requires Valid() && Inv(model) && k < |model.threads| && model.threads[k].tid != 0
      requires i < |model.threads[k].callstack| && model.threads[k].callstack[i].FuncFrame?
      requires Tracer.HandleReturn(model, options, k, i, addr).Ok?
      modifies Footprint()
      ensures Valid() && model == Tracer.HandleReturn(old(model), options, k, i, addr).value
      ensures var th := old(model).threads[k];
        printer.ThePen() == ReturnPen(printer, old(printer.ThePen()), th.tid, i, th.callstack[i].libfunc.name, view)
      ensures Footprint() == old(Footprint())
    {
      hide B.Breakpoints.Shows, T.ThreadTable.Shows, Separate, Links, Inv, Tracer.Returned, Tracer.ContinueAfter;
      ReturnFrom(k, i, view);
      ContinueAfterBreakpoint(k, addr);
    }

    /** The printing and pushing of a call. */
    method CallOf(k: nat, sym: Symbol, ret: Addr, view: View)
      requires Valid() && k < |model.threads|
      modifies Footprint()
      ensures Valid() && model == Tracer.Called(old(model), options, k, sym, ret)
      ensures var th := old(model).threads[k];
        printer.ThePen() == CallPen(printer, old(printer.ThePen()), th.tid, |th.callstack|, sym.name, view)
      ensures fresh(Footprint() - old(Footprint()))
    {
      hide B.Breakpoints.Shows, T.ThreadTable.Shows, Separate, Links, Tracer.PrintLeft, CallPen;
      PrintCall(k, sym.name, view);
      CallstackPushSymfunc(k, sym, ret);
      CountCall();
    }

    method ProcessCall(k: nat, sym: Symbol, ret: Addr, view: View)
      requires Valid() && k < |model.threads| && Tracer.HandleCall(model, options, k, sym, ret).Ok?
      modifies Footprint()
      ensures Valid() && model == Tracer.HandleCall(old(model), options, k, sym, ret).value
      ensures var th := old(model).threads[k];
        printer.ThePen() == CallPen(printer, old(printer.ThePen()), th.tid, |th.callstack|, sym.name, view)
      ensures fresh(Footprint() - old(Footprint()))
    {
      hide B.Breakpoints.Shows, T.ThreadTable.Shows, Separate, Links, Tracer.Called, Tracer.ContinueAfter;
      CallOf(k, sym, ret, view);
      ContinueAfterBreakpoint(k, sym.enterAddr);
    }

    method ProcessBreakpoint(k: nat, addr: Addr, ret: Addr, view: View)
      requires Valid() && Inv(model) && k < |model.threads| && model.threads[k].tid != 0 && addr != 0
      requires Tracer.HandleBreakpoint(model, options, k, addr, ret).Ok?
      modifies Footprint()
      ensures Valid() && model == Tracer.HandleBreakpoint(old(model), options, k, addr, ret).value
      ensures printer.ThePen() == TrapPen(printer, old(printer.ThePen()), symbols, old(model).threads[k], addr, view)
      ensures fresh(Footprint() - old(Footprint()))
    {
      hide B.Breakpoints.Shows, T.ThreadTable.Shows, Separate, Links, Inv, Tracer.Reinsert, Tracer.HandleReturn,
        Tracer.HandleCall, ReturnPen, CallPen, TextPen;
      ThreadFacts(k);
      if table.threads[k].beingEnabled != null {
        ReinsertBreakpoint(k);
        return;
      }
      var i := FindFrame(k, addr);
      if i >= 0 {
        ProcessReturn(k, i, addr, view);
        return;
      }
      var j := FindSymbol(addr);
      if j < |symbols| {
        ProcessCall(k, symbols[j], ret, view);
        return;
      }
      PrintText(k, view);
    }

    method EnableAllBreakpoints()
      requires Valid()
      modifies this`model, bp`mode, bp.objects
      ensures Valid() && model == Tracer.EnableAll(old(model)) && Footprint() == old(Footprint())
    {
      hide B.Breakpoints.Shows, T.ThreadTable.Shows, Tracer.EnableAll;
      BreakpointFacts();
      EnableAllElsewhere(model);
      bp.EnableAll(model);
      model := Tracer.EnableAll(model);
    }

    method DisableAllBreakpoints()
      requires Valid()
      modifies this`model, bp`mode, bp.objects
      ensures Valid() && model == Tracer.DisableAll(old(model)) && Footprint() == old(Footprint())
    {
      hide B.Breakpoints.Shows, T.ThreadTable.Shows, Tracer.DisableAll;
      BreakpointFacts();
      EnableAllElsewhere(model);
      bp.DisableAll(model);
      model := Tracer.DisableAll(model);
    }

    /** Breakpoints that had been disabled come back with the first system call other than clone. */
    method EnableUnlessClone(sysnum: int)
      requires Valid()
      modifies this`model, bp`mode, bp.objects
      ensures Valid() && Footprint() == old(Footprint())
      ensures model == if sysnum != SYS_CLONE && old(model).mode == 0 then Tracer.EnableAll(old(model)) else old(model)
    {
      hide B.Breakpoints.Shows, T.ThreadTable.Shows, Separate, Links, Tracer.EnableAll;
      BreakpointFacts();
      if sysnum != SYS_CLONE && bp.mode == 0 {
        EnableAllBreakpoints();
      }
    }

    /** System calls are written under -S only. */
    method PrintSyscall(k: nat, view: View)
      requires Valid() && k < |model.threads|
      modifies this`model, printer
      ensures Valid() && Footprint() == old(Footprint())
      ensures var th := old(model).threads[k];
        && model == (if options.showSyscalls
                     then WithPrinter(old(model), PrintLeft(old(model).printer, options, th.tid, |th.callstack|, calls))
                     else old(model))
        && printer.ThePen() == EventPen(printer, old(printer.ThePen()), options, symbols, th, Syscall(0), view)
    {
      hide B.Breakpoints.Shows, T.ThreadTable.Shows, Separate, Links, Tracer.PrintLeft, CallPen;
      if options.showSyscalls {
        PrintCall(k, view.text, view);
      }
    }

    method ProcessSyscall(k: nat, sysnum: int, view: View)
      requires Valid() && k < |model.threads|
      modifies Footprint()
      ensures Valid() && model == Tracer.HandleSyscall(old(model), options, k, sysnum)
      ensures var th := old(model).threads[k];
        printer.ThePen() == EventPen(printer, old(printer.ThePen()), options, symbols, th, Syscall(sysnum), view)
      ensures Footprint() == old(Footprint())
    {
      hide B.Breakpoints.Shows, T.ThreadTable.Shows, Separate, Links, Tracer.EnableAll, Tracer.PrintLeft, CallPen;
      ThreadFacts(k);
      PrintSyscall(k, view);
      BreakpointFacts();
      EnableAllElsewhere(model);
      EnableUnlessClone(sysnum);
      if sysnum != SYS_EXECVE {
        CallstackPushSyscall(k, sysnum);
      }
      CountCall();
    }

    method ProcessSysret(k: nat, view: View)
      requires Valid() && Inv(model) && k < |model.threads| && model.threads[k].tid != 0
      requires model.threads[k].callstack != []
      modifies Footprint()
      ensures Valid() && Tracer.HandleSysret(old(model), options, k).Ok?
      ensures model == Tracer.HandleSysret(old(model), options, k).value
      ensures var th := old(model).threads[k];
        printer.ThePen() == EventPen(printer, old(printer.ThePen()), options, symbols, th, Sysret(0), view)
      ensures Footprint() == old(Footprint())
    {
      hide B.Breakpoints.Shows, T.ThreadTable.Shows, Separate, Links, Inv;
      ThreadFacts(k);
      PopKeeps(model, k);
      ghost var top := model.threads[k].callstack[|model.threads[k].callstack| - 1];
      CallstackPop(k);
      if options.showSyscalls {
        PrintReturn(k, view.text, view, top.call);
      }
    }

    // --- wait_for_something and process_event ---

    /** tid2thread, then reg_tid for a thread that is new; None stands for the exit when the table is full. */
    method FindThread(tid: nat) returns (r: Option<nat>)
      requires Valid() && Inv(model) && tid != 0
      modifies this`model, table, table.threads
      ensures Valid() && Footprint() == old(Footprint())
      ensures match Tracer.Locate(old(model), tid)
        case None => r == None && model == old(model)
        case Some((s, k)) => r == Some(k) && model == s
    {
      hide B.Breakpoints.Shows, T.ThreadTable.Shows, Separate, Links, Inv;
      TableFacts();
      DistinctIds(model);
      var k := table.Tid2Thread(tid, model.threads);
      if k < MAX_THREADS_TRACED {
        return Some(k);
      }
      r := Register(tid);
    }

    static lemma DistinctIds(s: State)
      requires Inv(s)
      ensures TidsDistinct(s.threads)
    {
    }

    /** The thread gets the first free slot. */
    method Register(tid: nat) returns (r: Option<nat>)
      requires Valid() && tid != 0 && Tracer.FindTid(model.threads, tid, 0) == |model.threads|
      modifies this`model, table, table.threads
      ensures Valid() && Footprint() == old(Footprint())
      ensures var k := Tracer.FindTid(old(model).threads, 0, 0);
        if k == |old(model).threads| then r == None && model == old(model)
        else r == Some(k) && model == SetThread(old(model), k, old(model).threads[k].(tid := tid))
    {
      hide B.Breakpoints.Shows, T.ThreadTable.Shows;
      TableFacts();
      ghost var s := model;
      r := table.RegTid(tid, s.threads);
      if r.Some? {
        model := SetThread(s, r.value, s.threads[r.value].(tid := tid));
        ThreadsChanged(s, model);
      }
    }

    lemma TableFacts()
      requires Valid()
      ensures |model.threads| == |table.threads| == MAX_THREADS_TRACED && bp !in bp.objects
      ensures table.Shows(model.threads)
      ensures forall i :: 0 <= i < |table.threads| ==> table.threads[i] in table.objects
    {
    }

    /** syscall_p: 1 for a system call, 2 for its return, 0 otherwise. */
    method SyscallP(k: nat, stop: Stop) returns (r: int)
      requires Valid() && k < |model.threads|
      ensures r == match Classify(model.threads[k], stop) case Syscall(_) => 1 case Sysret(_) => 2 case _ => 0
    {
      hide B.Breakpoints.Shows, T.ThreadTable.Shows, Separate, Links;
      ThreadFacts(k);
      var thr := table.threads[k];
      if stop.Stopped? && stop.signum == SIGTRAP {
        if thr.depth > 0 {
          var top := thr.callstack[thr.depth - 1];
          assert top == model.threads[k].callstack[|model.threads[k].callstack| - 1];
          if top.SyscallFrame? && top.sysnum == stop.sysnum {
            return 2;
          }
        }
        if stop.sysnum >= 0 {
          return 1;
        }
      }
      return 0;
    }

    /** The order in which wait_for_something tells stops apart. */
    method ClassifyStop(k: nat, stop: Stop) returns (e: Event)
      requires Valid() && k < |model.threads|
      ensures e == Classify(model.threads[k], stop)
    {
      hide B.Breakpoints.Shows, T.ThreadTable.Shows, Separate, Links;
      var r := SyscallP(k, stop);
      if r == 1 {
        return Syscall(stop.sysnum);
      } else if r == 2 {
        return Sysret(stop.sysnum);
      }
      match stop
      case Exited => return ExitEvent;
      case Killed => return ExitEvent;
      case Other => return Unknown;
      case Stopped(signum, sysnum, pc, ret, exiting) =>
        if signum != SIGTRAP {
          return Signal(signum, exiting);
        }
        return BreakpointHit(DecrPc(pc), ret);
    }

    /** One round of the main loop takes the step the state machine takes. */
    method Round(tid: nat, stop: Stop, view: View) returns (v: Verdict)
      requires Valid() && Inv(model) && RealStop(tid, stop)
      modifies Footprint()
      ensures Valid() && Tracer.Step(old(model), options, tid, stop).Ok?
      ensures match Tracer.Step(old(model), options, tid, stop).value
        case Running(s) => v == GoesOn && model == s
        case Gone(s) => v == LetGo && model == s
        case Quit => v == Quits
        case ExecReturned => false
      ensures v != Quits ==> Inv(model)
      ensures printer.ThePen() == RoundPen(printer, old(printer.ThePen()), options, old(model), tid, stop, view)
      ensures fresh(Footprint() - old(Footprint()))
    {
      hide B.Breakpoints.Shows, T.ThreadTable.Shows, Separate, Links, Tracer.Handle, Tracer.EnableAll, Inv,
        EventPen;
      TableFacts();
      StepKeeps(model, options, tid, stop);
      if Tracer.Locate(model, tid).Some? {
        LocateKeeps(model, tid);
      }
      var r := FindThread(tid);
      if r == None {
        return Quits;
      }
      v := Serve(r.value, stop, view);
    }

    /** wait_for_something once the thread is known, then process_event. */
    method Serve(k: nat, stop: Stop, view: View) returns (v: Verdict)
      requires Valid() && Inv(model) && k < |model.threads| && RealStop(model.threads[k].tid, stop)
      requires model.mode != -1 ==> Tracer.Handle(model, options, k, Classify(model.threads[k], stop)).Ok?
      modifies Footprint()
      ensures Valid() && fresh(Footprint() - old(Footprint()))
      ensures if old(model).mode == -1 then v == GoesOn && model == Tracer.EnableAll(old(model))
        else match Tracer.Handle(old(model), options, k, Classify(old(model).threads[k], stop)).value
          case Running(s) => v == GoesOn && model == s
          case Gone(s) => v == LetGo && model == s
          case Quit => v == Quits
          case ExecReturned => false
      ensures var th := old(model).threads[k];
        printer.ThePen() ==
        if old(model).mode == -1 then old(printer.ThePen())
        else EventPen(printer, old(printer.ThePen()), options, symbols, th, Classify(th, stop), view)
    {
      hide B.Breakpoints.Shows, T.ThreadTable.Shows, Separate, Links, Tracer.Handle, Tracer.EnableAll, Inv, EventPen;
      EventFacts(model, k, model.threads[k].tid, stop);
      BreakpointFacts();
      if bp.mode == -1 {
        EnableAllBreakpoints();
        return GoesOn;
      }
      var e := ClassifyStop(k, stop);
      v := ProcessEvent(k, e, view);
    }

    method ProcessEvent(k: nat, e: Event, view: View) returns (v: Verdict)
      requires Valid() && Inv(model) && k < |model.threads| && model.threads[k].tid != 0
      requires e.Sysret? ==> model.threads[k].callstack != [] && e.sysnum != SYS_EXECVE
      requires e.BreakpointHit? ==> e.addr != 0
      requires Tracer.Handle(model, options, k, e).Ok?
      modifies Footprint()
      ensures Valid()
      ensures match Tracer.Handle(old(model), options, k, e).value
        case Running(s) => v == GoesOn && model == s
        case Gone(s) => v == LetGo && model == s
        case Quit => v == Quits
        case ExecReturned => false
      ensures var th := old(model).threads[k];
        printer.ThePen() == EventPen(printer, old(printer.ThePen()), options, symbols, th, e, view)
      ensures fresh(Footprint() - old(Footprint()))
    {
      hide B.Breakpoints.Shows, T.ThreadTable.Shows, Separate, Links, Inv, Tracer.HandleSyscall, Tracer.HandleSysret,
        Tracer.HandleBreakpoint, Tracer.DisableAll, Tracer.PrintLine;
      match e
      case Syscall(sysnum) =>
        ProcessSyscall(k, sysnum, view);
        return GoesOn;
      case Sysret(sysnum) =>
        ProcessSysret(k, view);
        return GoesOn;
      case ExitEvent =>
        PrintText(k, view);
        return LetGo;
      case Unknown =>
        return Quits;
      case Signal(signum, exiting) =>
        if exiting && signum == SIGSTOP {
          BreakpointFacts();
          DisableAllBreakpoints();
          return LetGo;
        }
        PrintText(k, view);
        return GoesOn;
      case BreakpointHit(addr, ret) =>
        ProcessBreakpoint(k, addr, ret, view);
        return GoesOn;
    }
  }
}
