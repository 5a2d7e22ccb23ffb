/** What -c does to a session: nothing but to charge each return instead of logging it (output_right in output.c). */
module CountOnly {
  import opened Base
  import opened Memory
  import opened Tracer
  import opened RefCounts
  import opened TextSafety
  import LineJoin
  import opened Process
  import opened Session
  import opened LogText
  import S = Summary

  // --- the returns charged ---

  /** A function's return is charged under its name, with -S also a system call's. */
  function EventCharges(o: Options, th: ThreadState, e: Event, view: View): seq<Charge> {
    match e
    case BreakpointHit(addr, _) =>
      var i := FindFrame(th.callstack, addr, |th.callstack|);
      if th.beingEnabled == None && i >= 0 && th.callstack[i].FuncFrame?
      then [Charge(th.callstack[i].libfunc.name, view.spent.0, view.spent.1)] else []
    case Sysret(_) =>
      if o.showSyscalls && th.callstack != [] then [Charge(view.text, view.spent.0, view.spent.1)] else []
    case _ => []
  }

  function RoundCharges(o: Options, s: State, x: Session.Round): seq<Charge> {
    match Locate(s, x.input.tid)
    case None => []
    case Some((s1, k)) =>
      if s1.mode == -1 then [] else EventCharges(o, s1.threads[k], Classify(s1.threads[k], x.input.stop), x.view)
  }

  /** All returns of a session, in order. */
  ghost function Charges(o: Options, start: State, rounds: seq<Session.Round>): seq<Charge>
    decreases |rounds|
  {
    if rounds == [] then []
    else
      var before, last := rounds[..|rounds| - 1], rounds[|rounds| - 1];
      var r := Run(start, o, Inputs(before));
      Charges(o, start, before) + if r.Ok? && r.value.Running? then RoundCharges(o, r.value.s, last) else []
  }

  /** Under -c the printer is charged exactly these. */
  lemma {:induction false} LedgerIsCharges(p: P.Printer, o: Options, start: State, rounds: seq<Session.Round>)
    requires p.Valid() && p.settings.countOnly && o.countOnly
    ensures Written(p, o, start, rounds).ledger == Charges(o, start, rounds)
    decreases |rounds|
  {
    hide Run, RoundPen;
    if rounds != [] {
      var before, last := rounds[..|rounds| - 1], rounds[|rounds| - 1];
      LedgerIsCharges(p, o, start, before);
      var r := Run(start, o, Inputs(before));
      if r.Ok? && r.value.Running? {
        RoundCharged(p, Written(p, o, start, before), o, r.value.s, last);
      }
    }
  }

  lemma {:induction false} RoundCharged(p: P.Printer, pen: Pen, o: Options, s: State, x: Session.Round)
    requires p.Valid() && p.settings.countOnly
    ensures RoundPen(p, pen, o, s, x.input.tid, x.input.stop, x.view).ledger == pen.ledger + RoundCharges(o, s, x)
  {
  }

  /** And writes nothing at all. */
  lemma {:induction false} NothingWritten(p: P.Printer, o: Options, start: State, rounds: seq<Session.Round>)
    requires p.Valid() && p.settings.countOnly
    ensures var pen := Written(p, o, start, rounds); pen.out == "" && pen.pid == 0
    decreases |rounds|
  {
    hide Run, RoundPen;
    if rounds != [] {
      var before, last := rounds[..|rounds| - 1], rounds[|rounds| - 1];
      NothingWritten(p, o, start, before);
      var r := Run(start, o, Inputs(before));
      if r.Ok? && r.value.Running? {
        RoundSilent(p, Written(p, o, start, before), o, r.value.s, last);
      }
    }
  }

  lemma {:induction false} RoundSilent(p: P.Printer, pen: Pen, o: Options, s: State, x: Session.Round)
    requires p.Valid() && p.settings.countOnly
    ensures var pen' := RoundPen(p, pen, o, s, x.input.tid, x.input.stop, x.view);
      pen'.out == pen.out && pen'.pid == pen.pid
  {
  }

  // --- a run with and without -c ---

  /** The same outcome, but for the log. */
  ghost predicate Alike(r: Outcome<State>, r': Outcome<State>) {
    match (r, r')
    case (Ok(s), Ok(s')) => s' == WithPrinter(s, s'.printer)
    case (Aborted, Aborted) => true
    case _ => false
  }

  ghost predicate NextAlike(r: Outcome<Next>, r': Outcome<Next>) {
    match (r, r')
    case (Ok(Running(s)), Ok(Running(s'))) => s' == WithPrinter(s, s'.printer)
    case (Ok(Gone(s)), Ok(Gone(s'))) => s' == WithPrinter(s, s'.printer)
    case (Ok(Quit), Ok(Quit)) => true
    case (Ok(ExecReturned), Ok(ExecReturned)) => true
    case (Aborted, Aborted) => true
    case _ => false
  }

  lemma PopAlike(s: State, p: PrinterState, k: nat)
    requires k < |s.threads|
    ensures Alike(Pop(s, k), Pop(WithPrinter(s, p), k))
  {
  }

  lemma {:induction false} PopToAside(s: State, p: PrinterState, k: nat, depth: nat)
    requires k < |s.threads|
    ensures Alike(PopTo(s, k, depth), PopTo(WithPrinter(s, p), k, depth))
    decreases |s.threads[k].callstack|
  {
    if |s.threads[k].callstack| > depth {
      PopAlike(s, p, k);
      if Pop(s, k).Ok? {
        PopToAside(Pop(s, k).value, Pop(WithPrinter(s, p), k).value.printer, k, depth);
      }
    }
  }

  lemma ReturnedAside(s: State, p: PrinterState, o: Options, o': Options, k: nat, i: nat)
    requires k < |s.threads| && i < |s.threads[k].callstack|
    ensures Alike(Returned(s, o, k, i), Returned(WithPrinter(s, p), o', k, i))
  {
    PopToAside(s, p, k, i + 1);
    var r, r' := PopTo(s, k, i + 1), PopTo(WithPrinter(s, p), k, i + 1);
    if r.Ok? {
      PopAlike(r.value, r'.value.printer, k);
    }
  }

  lemma ContinueAside(s: State, p: PrinterState, k: nat, a: Addr)
    requires k < |s.threads|
    ensures Alike(ContinueAfter(s, k, a), ContinueAfter(WithPrinter(s, p), k, a))
  {
  }

  lemma CalledAside(s: State, p: PrinterState, o: Options, o': Options, k: nat, sym: Symbol, ret: Addr)
    requires k < |s.threads|
    ensures var s', t' := Called(s, o, k, sym, ret), Called(WithPrinter(s, p), o', k, sym, ret);
      t' == WithPrinter(s', t'.printer)
  {
  }

  lemma {:induction false} BreakpointAside(s: State, p: PrinterState, o: Options, o': Options, k: nat, addr: Addr,
                                           ret: Addr)
    requires k < |s.threads|
    ensures Alike(HandleBreakpoint(s, o, k, addr, ret), HandleBreakpoint(WithPrinter(s, p), o', k, addr, ret))
  {
    hide Returned, Called, ContinueAfter;
    var th := s.threads[k];
    var i, j := FindFrame(th.callstack, addr, |th.callstack|), FindSymbol(s.symbols, addr, 0);
    if th.beingEnabled == None {
      if i >= 0 {
        ReturnedAside(s, p, o, o', k, i);
        var r, r' := Returned(s, o, k, i), Returned(WithPrinter(s, p), o', k, i);
        if r.Ok? {
          ContinueAside(r.value, r'.value.printer, k, addr);
        }
      } else if j < |s.symbols| {
        CalledAside(s, p, o, o', k, s.symbols[j], ret);
        var t' := Called(WithPrinter(s, p), o', k, s.symbols[j], ret);
        ContinueAside(Called(s, o, k, s.symbols[j], ret), t'.printer, k, s.symbols[j].enterAddr);
      }
    }
  }

  lemma {:induction false} SyscallAside(s: State, p: PrinterState, o: Options, o': Options, k: nat, sysnum: int)
    requires k < |s.threads| && o'.showSyscalls == o.showSyscalls
    ensures var s', t' := HandleSyscall(s, o, k, sysnum), HandleSyscall(WithPrinter(s, p), o', k, sysnum);
      t' == WithPrinter(s', t'.printer)
  {
    hide EnableAll, PrintLeft;
    var th := s.threads[k];
    var p1 := if o.showSyscalls then PrintLeft(s.printer, o, th.tid, |th.callstack|, s.calls) else s.printer;
    var p2 := if o.showSyscalls then PrintLeft(p, o', th.tid, |th.callstack|, s.calls) else p;
    AllAside(s, p1);
    AllAside(s, p2);
  }

  lemma {:induction false} HandleAside(s: State, p: PrinterState, o: Options, o': Options, k: nat, e: Event)
    requires k < |s.threads| && o'.showSyscalls == o.showSyscalls
    requires e.Sysret? ==> s.threads[k].callstack != []
    ensures NextAlike(Handle(s, o, k, e), Handle(WithPrinter(s, p), o', k, e))
  {
    hide HandleBreakpoint, HandleSyscall, EnableAll, DisableAll, Pop;
    match e
    case Syscall(sysnum) => SyscallAside(s, p, o, o', k, sysnum);
    case Sysret(sysnum) => PopAlike(s, p, k);
    case ExitEvent =>
    case Unknown =>
    case Signal(_, _) => AllAside(s, p);
    case BreakpointHit(addr, ret) => BreakpointAside(s, p, o, o', k, addr, ret);
  }

  lemma {:induction false} StepAside(s: State, p: PrinterState, o: Options, o': Options, tid: nat, stop: Stop)
    requires o'.showSyscalls == o.showSyscalls
    ensures NextAlike(Step(s, o, tid, stop), Step(WithPrinter(s, p), o', tid, stop))
  {
    hide Handle, EnableAll;
    var r := Locate(s, tid);
    if r.Some? {
      var (s1, k) := r.value;
      assert Locate(WithPrinter(s, p), tid) == Some((WithPrinter(s1, p), k));
      AllAside(s1, p);
      HandleAside(s1, p, o, o', k, Classify(s1.threads[k], stop));
    }
  }

  /** With -c and without, a session passes through the same states, but for the log. */
  lemma {:induction false} RunAside(start: State, o: Options, o': Options, inputs: seq<Input>)
    requires o'.showSyscalls == o.showSyscalls
    ensures NextAlike(Run(start, o, inputs), Run(start, o', inputs))
    decreases |inputs|
  {
    hide Step;
    if inputs != [] {
      var before, last := inputs[..|inputs| - 1], inputs[|inputs| - 1];
      RunAside(start, o, o', before);
      var r, r' := Run(start, o, before), Run(start, o', before);
      if r.Ok? && r.value.Running? {
        StepAside(r.value.s, r'.value.s.printer, o, o', last.tid, last.stop);
      }
    }
  }

  lemma RoundChargesAside(o: Options, o': Options, s: State, p: PrinterState, x: Session.Round)
    requires o'.showSyscalls == o.showSyscalls
    ensures RoundCharges(o', WithPrinter(s, p), x) == RoundCharges(o, s, x)
  {
    hide EventCharges;
    var r := Locate(s, x.input.tid);
    if r.Some? {
      var (s1, k) := r.value;
      assert Locate(WithPrinter(s, p), x.input.tid) == Some((WithPrinter(s1, p), k));
      SameEventCharges(o, o', s1.threads[k], Classify(s1.threads[k], x.input.stop), x.view);
    }
  }

  lemma SameEventCharges(o: Options, o': Options, th: ThreadState, e: Event, view: View)
    requires o'.showSyscalls == o.showSyscalls
    ensures EventCharges(o', th, e, view) == EventCharges(o, th, e, view)
  {
  }

  lemma {:induction false} ChargesAside(o: Options, o': Options, start: State, rounds: seq<Session.Round>)
    requires o'.showSyscalls == o.showSyscalls
    ensures Charges(o', start, rounds) == Charges(o, start, rounds)
    decreases |rounds|
  {
    hide RoundCharges, Run;
    if rounds != [] {
      var before, last := rounds[..|rounds| - 1], rounds[|rounds| - 1];
      ChargesAside(o, o', start, before);
      RunAside(start, o, o', Inputs(before));
      var r, r' := Run(start, o, Inputs(before)), Run(start, o', Inputs(before));
      if r.Ok? && r.value.Running? {
        RoundChargesAside(o, o', r.value.s, r'.value.s.printer, last);
      }
    }
  }

  // --- the log and the ledger ---

  /** The returns in a log. */
  function Rights(items: seq<Item>): nat {
    if items == [] then 0 else Rights(items[..|items| - 1]) + if items[|items| - 1].Right? then 1 else 0
  }

  lemma RightsAppend(items: seq<Item>, item: Item)
    ensures Rights(items + [item]) == Rights(items) + if item.Right? then 1 else 0
  {
    assert (items + [item])[..|items|] == items;
  }

  lemma PrintsCounted(p: PrinterState, o: Options, tid: nat, depth: nat, call: nat)
    requires !o.countOnly
    ensures Rights(PrintLeft(p, o, tid, depth, call).items) == Rights(p.items)
    ensures Rights(PrintRight(p, o, tid, depth, call).items) == Rights(p.items) + 1
    ensures Rights(PrintLine(p, o).items) == Rights(p.items)
  {
    hide Rights;
    RightsAppend(p.items, PrintLeft(p, o, tid, depth, call).items[|p.items|]);
    RightsAppend(p.items, PrintRight(p, o, tid, depth, call).items[|p.items|]);
    RightsAppend(p.items, PrintLine(p, o).items[|p.items|]);
  }

  ghost predicate RightsGrow(n: Next, items: seq<Item>, more: nat) {
    match n
    case Running(s) => Rights(s.printer.items) == Rights(items) + more
    case Gone(s) => Rights(s.printer.items) == Rights(items) + more
    case _ => true
  }

  lemma ReturnedPrints(s: State, o: Options, k: nat, i: nat)
    requires k < |s.threads| && i < |s.threads[k].callstack|
    ensures var th, r := s.threads[k], Returned(s, o, k, i);
      r.Ok? ==> r.value.printer == PrintRight(s.printer, o, th.tid, i, th.callstack[i].call)
  {
    PopAside(s, k, i + 1);
    if PopTo(s, k, i + 1).Ok? {
      PopAside(PopTo(s, k, i + 1).value, k, 0);
    }
  }

  lemma {:induction false} TrapCounted(s: State, o: Options, k: nat, addr: Addr, ret: Addr, view: View)
    requires Inv(s) && k < |s.threads| && s.threads[k].tid != 0 && addr != 0 && !o.countOnly
    requires HandleBreakpoint(s, o, k, addr, ret).Ok?
    ensures Rights(HandleBreakpoint(s, o, k, addr, ret).value.printer.items) ==
      Rights(s.printer.items) + |EventCharges(o, s.threads[k], BreakpointHit(addr, ret), view)|
  {
    hide Inv, Rights, Returned, Called;
    var th := s.threads[k];
    var i, j := FindFrame(th.callstack, addr, |th.callstack|), FindSymbol(s.symbols, addr, 0);
    if th.beingEnabled == None {
      if i >= 0 {
        ReturnedPrints(s, o, k, i);
        PrintsCounted(s.printer, o, th.tid, i, th.callstack[i].call);
      } else if j < |s.symbols| {
        LineJoin.CalledPrints(s, o, k, s.symbols[j], ret);
        PrintsCounted(s.printer, o, th.tid, |th.callstack|, s.calls);
      } else {
        PrintsCounted(s.printer, o, th.tid, 0, 0);
      }
    }
  }

  lemma {:induction false} EventCounted(s: State, o: Options, k: nat, stop: Stop, view: View)
    requires Inv(s) && k < |s.threads| && s.threads[k].tid != 0 && RealStop(s.threads[k].tid, stop) && !o.countOnly
    ensures var e := Classify(s.threads[k], stop);
      var r := Handle(s, o, k, e);
      r.Ok? && !r.value.ExecReturned? ==>
        RightsGrow(r.value, s.printer.items, |EventCharges(o, s.threads[k], e, view)|)
  {
    hide Inv, Rights, HandleBreakpoint, HandleSyscall, Pop, EnableAll;
    var th, e := s.threads[k], Classify(s.threads[k], stop);
    PrintsCounted(s.printer, o, th.tid, |th.callstack|, s.calls);
    match e
    case Syscall(sysnum) => LineJoin.SyscallChanges(s, o, k, sysnum);
    case Sysret(sysnum) =>
      SysretPopsItsCall(s, o, k, stop);
      PopAside(s, k, 0);
      PrintsCounted(s.printer, o, th.tid, |th.callstack| - 1, th.callstack[|th.callstack| - 1].call);
    case ExitEvent =>
    case Unknown =>
    case Signal(_, _) => EnableAllElsewhere(s);
    case BreakpointHit(addr, ret) =>
      if HandleBreakpoint(s, o, k, addr, ret).Ok? {
        TrapCounted(s, o, k, addr, ret, view);
      }
  }

  lemma {:induction false} RoundCounted(s: State, o: Options, x: Session.Round)
    requires Inv(s) && RealStop(x.input.tid, x.input.stop) && !o.countOnly
    ensures Step(s, o, x.input.tid, x.input.stop).Ok?
    ensures RightsGrow(Step(s, o, x.input.tid, x.input.stop).value, s.printer.items, |RoundCharges(o, s, x)|)
  {
    hide Inv, Handle, EventCharges, EnableAll, RightsGrow;
    StepKeeps(s, o, x.input.tid, x.input.stop);
    var r := Locate(s, x.input.tid);
    if r.Some? {
      LocateKeeps(s, x.input.tid);
      var (s1, k) := r.value;
      if s1.mode != -1 {
        EventCounted(s1, o, k, x.input.stop, x.view);
      } else {
        EnableAllElsewhere(s1);
        NoneGrow(EnableAll(s1), s.printer.items);
      }
    } else {
      QuitGrows(s.printer.items, 0);
    }
  }

  lemma NoneGrow(s: State, items: seq<Item>)
    requires s.printer.items == items
    ensures RightsGrow(Running(s), items, 0)
  {
  }

  lemma QuitGrows(items: seq<Item>, more: nat)
    ensures RightsGrow(Quit, items, more)
  {
  }

  /** At any moment of any session: with -c there is one charge for each return the log would show without it. */
  lemma {:induction false} EveryReturnCharged(symbols: seq<Symbol>, text: Text, pid: nat, o: Options,
                                              rounds: seq<Session.Round>)
    requires RealStops(Inputs(rounds))
    ensures var start, quiet, loud := Attach(symbols, text, pid), o.(countOnly := true), o.(countOnly := false);
      && NextAlike(Run(start, quiet, Inputs(rounds)), Run(start, loud, Inputs(rounds)))
      && Run(start, loud, Inputs(rounds)).Ok?
      && RightsGrow(Run(start, loud, Inputs(rounds)).value, [], |Charges(quiet, start, rounds)|)
    decreases |rounds|
  {
    hide Run, Step, RoundCharges, RightsGrow, Inv;
    var start, quiet, loud := Attach(symbols, text, pid), o.(countOnly := true), o.(countOnly := false);
    RunAside(start, quiet, loud, Inputs(rounds));
    ChargesAside(quiet, loud, start, rounds);
    LogCounted(symbols, text, pid, loud, rounds);
  }

  lemma {:induction false} LogCounted(symbols: seq<Symbol>, text: Text, pid: nat, o: Options,
                                      rounds: seq<Session.Round>)
    requires RealStops(Inputs(rounds)) && !o.countOnly
    ensures var start := Attach(symbols, text, pid);
      && Run(start, o, Inputs(rounds)).Ok?
      && RightsGrow(Run(start, o, Inputs(rounds)).value, [], |Charges(o, start, rounds)|)
    decreases |rounds|
  {
    hide Step, RoundCharges, Inv, Attach, Rights;
    var start := Attach(symbols, text, pid);
    RunKeeps(symbols, text, pid, o, Inputs(rounds));
    if rounds == [] {
      NoLogYet(symbols, text, pid);
    } else {
      var before, last := rounds[..|rounds| - 1], rounds[|rounds| - 1];
      assert Inputs(rounds)[..|rounds| - 1] == Inputs(before);
      LogCounted(symbols, text, pid, o, before);
      RunKeeps(symbols, text, pid, o, Inputs(before));
      var n := Run(start, o, Inputs(before)).value;
      if n.Running? {
        assert RealStop(Inputs(rounds)[|rounds| - 1].tid, last.input.stop);
        RoundCounted(n.s, o, last);
      }
    }
  }

  lemma NoLogYet(symbols: seq<Symbol>, text: Text, pid: nat)
    ensures Attach(symbols, text, pid).printer.items == [] && Rights([]) == 0
  {
    LineJoin.InsertSymbolsPrints(Unattached(symbols, text), symbols);
  }

  // --- a session under -c, to its report ---

  /** The main loop, then show_summary. */
  method Count(symbols: seq<Symbol>, text: Text, pid: nat, options: Options, settings: Settings,
               functions: seq<Function>, rounds: seq<Session.Round>)
    returns (lines: seq<S.Line>, totCount: nat, totUsecs: nat)
    requires options.countOnly && settings.countOnly && P.AllFit(functions) && RealStops(Inputs(rounds))
    ensures var ledger := Charges(options, Attach(symbols, text, pid), rounds);
      S.Reports(lines, ledger) && totCount == |ledger| && totUsecs == S.TotalCharged(ledger)
  {
    hide Run, Written, Charges, S.Accounting.Valid, S.Reports, Process.Valid, Attach;
    var p, v := Trace(symbols, text, pid, options, settings, functions, rounds);
    LedgerIsCharges(p.printer, options, Attach(symbols, text, pid), rounds);
    var accounting := new S.Accounting();
    var ledger := p.printer.ledger;
    for i := 0 to |ledger|
      invariant accounting.Valid() && accounting.ledger == ledger[..i]
      invariant fresh(accounting) && fresh(accounting.TableObjects()) && fresh(accounting.counters.Values)
    {
      accounting.Return(ledger[i]);
    }
    assert ledger[..|ledger|] == ledger;
    lines, totCount, totUsecs := accounting.Summarise();
  }
}
