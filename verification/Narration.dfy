/** What the log tells of a stop: the function it names is the one whose frame the stop pushes or takes away. */
module Narration {
  import opened Base
  import opened Tracer
  import opened RefCounts
  import opened Completeness
  import opened LogText
  import opened LogReader
  import opened Process

  /** Functions' names can be told from what follows them. */
  ghost predicate ReadableNames(symbols: seq<Symbol>) {
    forall i :: 0 <= i < |symbols| ==> Readable(symbols[i].name)
  }

  /** A trap of a known or new thread outside a step. */
  ghost predicate TrapOf(s: State, tid: nat, stop: Stop) {
    && Inv(s) && RealStop(tid, stop) && s.mode != -1 && Locate(s, tid).Some? && !SteppingBy(s, tid)
    && Classify(ThreadOf(s, tid), stop).BreakpointHit?
  }

  /** A call is logged under the name of a kept symbol entered there, with the thread and its depth; and that symbol's
      frame, with the caller's address, is pushed when there is room. */
  lemma {:induction false} CallTold(p: P.Printer, pen: Pen, o: Options, s: State, tid: nat, stop: Stop, view: View)
    returns (line: string, f: Frame)
    requires p.Valid() && !p.settings.countOnly && TrapOf(s, tid, stop) && ReadableNames(s.symbols)
    requires var e := Classify(ThreadOf(s, tid), stop);
      FindFrame(StackOf(s, tid), e.addr, |StackOf(s, tid)|) < 0 && IsEntry(s, e.addr)
    ensures var e := Classify(ThreadOf(s, tid), stop);
      f.FuncFrame? && f.libfunc in s.symbols && f.libfunc.enterAddr == e.addr && f.retAddr == e.ret
    ensures match Step(s, o, tid, stop)
      case Ok(Running(s')) =>
        StackOf(s', tid) ==
        if |StackOf(s, tid)| < MAX_CALLDEPTH - 1 then StackOf(s, tid) + [f] else StackOf(s, tid)
      case _ => true
    ensures var d := |StackOf(s, tid)|;
      && RoundPen(p, pen, o, s, tid, stop, view).out ==
           Broken(pen) + (LinePrefix(p.settings, tid, d, true, view.stamp) + line)
      && ReadLine(line) == Some(Shown(Mark(tid, d, true, d), f.libfunc.name,
                                      LeftArgs(P.Lookup(p.functions, f.libfunc.name), view.show)))
  {
    hide Inv, Step, ReadLine, LinePrefix, LeftArgs, LeftPen, Readable, P.Lookup;
    var e, stack := Classify(ThreadOf(s, tid), stop), StackOf(s, tid);
    var j := FindSymbol(s.symbols, e.addr, 0);
    EntryFound(s, e.addr);
    f := FuncFrame(s.symbols[j], e.ret, s.calls);
    HeardTrap(s, o, tid, stop);
    SlotOf(s, tid);
    var (s1, k) := Locate(s, tid).value;
    DepthBounded(s1, k);
    P.LookupFits(p.functions, f.libfunc.name);
    line := CallReads(p.settings, pen, tid, |stack|, f.libfunc.name, P.Lookup(p.functions, f.libfunc.name), view.show,
                      view.stamp);
  }

  /** A return is logged under the name of the frame that it takes away, at that frame's depth. */
  lemma {:induction false} ReturnTold(p: P.Printer, pen: Pen, o: Options, s: State, tid: nat, stop: Stop, view: View)
    returns (line: string, more: string, i: nat)
    requires p.Valid() && !p.settings.countOnly && TrapOf(s, tid, stop)
    requires var e := Classify(ThreadOf(s, tid), stop); FindFrame(StackOf(s, tid), e.addr, |StackOf(s, tid)|) >= 0
    requires forall m :: 0 <= m < |StackOf(s, tid)| && StackOf(s, tid)[m].FuncFrame? ==>
      Readable(StackOf(s, tid)[m].libfunc.name)
    ensures i < |StackOf(s, tid)| && StackOf(s, tid)[i].FuncFrame?
    ensures match Step(s, o, tid, stop)
      case Ok(Running(s')) => StackOf(s', tid) == StackOf(s, tid)[..i]
      case _ => true
    ensures var name := StackOf(s, tid)[i].libfunc.name;
      var out, args := RoundPen(p, pen, o, s, tid, stop, view).out, RightArgs(P.Lookup(p.functions, name), view.show);
      if Joins(pen, tid, i) then out == pen.out + (args + (") " + more))
      else
        && out == Broken(pen) + (LinePrefix(p.settings, tid, i, true, view.stamp) + line)
        && ReadLine(line) == Some(Shown(Mark(0, i, false, i), name, args + (") " + more)))
  {
    hide Inv, Step, ReadLine, LinePrefix, RightArgs, RightPen, Readable, P.Lookup, Broken;
    var e, stack := Classify(ThreadOf(s, tid), stop), StackOf(s, tid);
    i := FindFrame(stack, e.addr, |stack|);
    HeardTrap(s, o, tid, stop);
    SlotOf(s, tid);
    var (s1, k) := Locate(s, tid).value;
    DepthBounded(s1, k);
    line, more := "", "";
    P.LookupFits(p.functions, stack[i].libfunc.name);
    var name := stack[i].libfunc.name;
    if Joins(pen, tid, i) {
      more := ReturnJoins(p.settings, pen, tid, i, name, P.Lookup(p.functions, name), view.show, view.time, view.stamp,
                          view.spent);
    } else {
      line, more := ReturnReads(p.settings, pen, tid, i, name, P.Lookup(p.functions, name), view.show, view.time,
                                view.stamp, view.spent);
    }
  }

  /** A stop that is a message to the user: the process's end, a signal, or a trap nothing is known of. */
  ghost predicate Message(s: State, tid: nat, stop: Stop) {
    match Classify(ThreadOf(s, tid), stop)
    case ExitEvent => true
    case Signal(signum, exiting) => !(exiting && signum == SIGSTOP)
    case BreakpointHit(addr, _) =>
      !SteppingBy(s, tid) && FindFrame(StackOf(s, tid), addr, |StackOf(s, tid)|) < 0 && !IsEntry(s, addr)
    case _ => false
  }

  /** A message is one whole line with its text, and after it no line is open. */
  lemma {:induction false} MessageTold(p: P.Printer, pen: Pen, o: Options, s: State, tid: nat, stop: Stop, view: View)
    returns (start: string)
    requires p.Valid() && !p.settings.countOnly && Inv(s) && RealStop(tid, stop) && s.mode != -1 && Locate(s, tid).Some?
    requires Message(s, tid, stop) && LineOk(pen) && Plain(view.text) && Plain(view.stamp)
    ensures var pen' := RoundPen(p, pen, o, s, tid, stop, view);
      && pen'.out == start + (LinePrefix(p.settings, tid, |StackOf(s, tid)|, false, view.stamp) + view.text) + "\n"
      && Tail(start) == "" && pen.out <= start && pen'.pid == 0
  {
    hide Inv, LinePrefix, Tail, LineOk;
    SlotOf(s, tid);
    var e := Classify(ThreadOf(s, tid), stop);
    if e.BreakpointHit? {
      EntryFound(s, e.addr);
    }
    var prefix := LinePrefix(p.settings, tid, |StackOf(s, tid)|, false, view.stamp);
    PrefixPlain(p.settings, tid, |StackOf(s, tid)|, false, view.stamp);
    start := MessageReads(p.settings, pen, prefix, view.text);
  }

  /** Under -S, and only then, a system call is logged under its name, at its entry and at its exit. */
  lemma {:induction false} SyscallTold(p: P.Printer, pen: Pen, o: Options, s: State, tid: nat, stop: Stop, view: View)
    returns (line: string)
    requires p.Valid() && !p.settings.countOnly && Inv(s) && tid != 0 && s.mode != -1 && Locate(s, tid).Some?
    requires Classify(ThreadOf(s, tid), stop).Syscall? && Readable(view.text)
    ensures var d := |StackOf(s, tid)|;
      if o.showSyscalls then
        && RoundPen(p, pen, o, s, tid, stop, view).out ==
             Broken(pen) + (LinePrefix(p.settings, tid, d, true, view.stamp) + line)
        && ReadLine(line) == Some(Shown(Mark(tid, d, true, d), view.text,
                                        LeftArgs(P.Lookup(p.functions, view.text), view.show)))
      else RoundPen(p, pen, o, s, tid, stop, view) == pen
  {
    hide Inv, ReadLine, LinePrefix, LeftArgs, LeftPen, Readable, P.Lookup, Broken;
    SlotOf(s, tid);
    var (s1, k) := Locate(s, tid).value;
    DepthBounded(s1, k);
    P.LookupFits(p.functions, view.text);
    line := CallReads(p.settings, pen, tid, |StackOf(s, tid)|, view.text, P.Lookup(p.functions, view.text), view.show,
                      view.stamp);
  }

  lemma {:induction false} SysretTold(p: P.Printer, pen: Pen, o: Options, s: State, tid: nat, stop: Stop, view: View)
    returns (line: string, more: string)
    requires p.Valid() && !p.settings.countOnly && Inv(s) && tid != 0 && s.mode != -1 && Locate(s, tid).Some?
    requires Classify(ThreadOf(s, tid), stop).Sysret? && Readable(view.text)
    ensures StackOf(s, tid) != []
    ensures var d, args := |StackOf(s, tid)| - 1, RightArgs(P.Lookup(p.functions, view.text), view.show);
      var out := RoundPen(p, pen, o, s, tid, stop, view).out;
      if !o.showSyscalls then RoundPen(p, pen, o, s, tid, stop, view) == pen
      else if Joins(pen, tid, d) then out == pen.out + (args + (") " + more))
      else
        && out == Broken(pen) + (LinePrefix(p.settings, tid, d, true, view.stamp) + line)
        && ReadLine(line) == Some(Shown(Mark(0, d, false, d), view.text, args + (") " + more)))
  {
    hide Inv, ReadLine, LinePrefix, RightArgs, RightPen, Readable, P.Lookup, Broken;
    SlotOf(s, tid);
    var (s1, k) := Locate(s, tid).value;
    DepthBounded(s1, k);
    P.LookupFits(p.functions, view.text);
    line, more := "", "";
    var d, func := |StackOf(s, tid)| - 1, P.Lookup(p.functions, view.text);
    if Joins(pen, tid, d) {
      more := ReturnJoins(p.settings, pen, tid, d, view.text, func, view.show, view.time, view.stamp, view.spent);
    } else {
      line, more := ReturnReads(p.settings, pen, tid, d, view.text, func, view.show, view.time, view.stamp, view.spent);
    }
  }

  /** The first stop, the end of a step and an interrupt are not logged. */
  lemma {:induction false} NotTold(p: P.Printer, pen: Pen, o: Options, s: State, tid: nat, stop: Stop, view: View)
    requires p.Valid() && Inv(s) && RealStop(tid, stop)
    requires s.mode == -1 || Locate(s, tid) == None || stop == Other ||
      (stop.Stopped? && stop.signum == SIGSTOP && stop.exiting) ||
      (SteppingBy(s, tid) && Classify(ThreadOf(s, tid), stop).BreakpointHit?)
    ensures RoundPen(p, pen, o, s, tid, stop, view) == pen
  {
    if Locate(s, tid).Some? {
      SlotOf(s, tid);
    }
  }

  // --- the text and the items of the log ---

  /** The printer stands where the items say. */
  predicate Agrees(pen: Pen, q: PrinterState) {
    pen.pid == q.currentPid && pen.depth == q.currentDepth
  }

  /** What is written first when an open line is broken off. */
  function Before(pen: Pen, broke: bool): string {
    if broke then pen.out + " <unfinished ...>\n" else pen.out
  }

  lemma BrokenIs(pen: Pen)
    ensures Broken(pen) == Before(pen, pen.pid != 0)
  {
    NothingBroken(pen);
  }

  /** A call's text breaks a line off exactly when its item says so. */
  lemma {:induction false} CallAgrees(settings: Settings, o: Options, pen: Pen, q: PrinterState, tid: nat, depth: nat,
                                      call: nat, name: string, func: Option<Function>, show: Display, stamp: string)
    returns (line: string)
    requires Agrees(pen, q) && !settings.countOnly && !o.countOnly && Fits(func) && Readable(name)
    requires depth <= MAX_CALLDEPTH
    ensures var pen' := LeftPen(settings, pen, tid, depth, name, func, show, stamp);
      var q' := PrintLeft(q, o, tid, depth, call);
      && Agrees(pen', q') && ReadLine(line).Some?
      && pen'.out == Before(pen, q'.items[|q.items|].broke) + (LinePrefix(settings, tid, depth, true, stamp) + line)
  {
    hide ReadLine, LinePrefix, LeftArgs, Readable, Broken;
    BrokenIs(pen);
    line := CallReads(settings, pen, tid, depth, name, func, show, stamp);
  }

  /** A return's text goes on the open line exactly when its item is joined, and breaks one off exactly when its item
      says so. */
  lemma {:induction false} ReturnAgrees(settings: Settings, o: Options, pen: Pen, q: PrinterState, tid: nat, depth: nat,
                                        call: nat, name: string, func: Option<Function>, show: Display, time: string,
                                        stamp: string, spent: (nat, nat))
    returns (text: string)
    requires Agrees(pen, q) && tid != 0 && !settings.countOnly && !o.countOnly && Fits(func) && Readable(name)
    requires depth <= MAX_CALLDEPTH
    ensures var pen' := RightPen(settings, pen, tid, depth, name, func, show, time, stamp, spent);
      var q' := PrintRight(q, o, tid, depth, call);
      var x := q'.items[|q.items|];
      && pen'.pid == q'.currentPid && pen'.out == Before(pen, x.broke) + text
      && if x.joined then RightArgs(func, show) + ") " <= text
         else
           var n := |LinePrefix(settings, tid, depth, true, stamp)|;
           n <= |text| && ReadLine(text[n..]).Some? && !ReadLine(text[n..]).value.mark.isCall
  {
    hide ReadLine, LinePrefix, RightArgs, Readable, Broken;
    BrokenIs(pen);
    if Joins(pen, tid, depth) {
      var more := ReturnJoins(settings, pen, tid, depth, name, func, show, time, stamp, spent);
      text := RightArgs(func, show) + (") " + more);
      assert text == RightArgs(func, show) + ") " + more;
    } else {
      var line, more := ReturnReads(settings, pen, tid, depth, name, func, show, time, stamp, spent);
      text := LinePrefix(settings, tid, depth, true, stamp) + line;
      assert text[|LinePrefix(settings, tid, depth, true, stamp)|..] == line;
    }
  }

  /** A message breaks an open line off and says so; without a text it does no more than that. */
  lemma {:induction false} MessageAgrees(settings: Settings, o: Options, pen: Pen, q: PrinterState, prefix: string,
                                         text: Option<string>)
    requires Agrees(pen, q) && !settings.countOnly && !o.countOnly
    ensures var pen', q' := LinePen(settings, pen, prefix, text), PrintLine(q, o);
      && Agrees(pen', q')
      && pen'.out == Before(pen, q'.items[|q.items|].broke) +
                     match text case None => "" case Some(t) => prefix + t + "\n"
  {
    hide Broken;
    BrokenIs(pen);
    match text
    case None => assert Broken(pen) + "" == Broken(pen);
    case Some(t) => assert Broken(pen) + prefix + t + "\n" == Broken(pen) + (prefix + t + "\n");
  }

  /** Under -c no text is written and no line opened, whatever is printed. */
  lemma UnderCount(settings: Settings, pen: Pen, tid: nat, depth: nat, name: string, func: Option<Function>,
                   show: Display, time: string, stamp: string, spent: (nat, nat), prefix: string, text: Option<string>)
    requires settings.countOnly && Fits(func)
    ensures LeftPen(settings, pen, tid, depth, name, func, show, stamp) == LinePen(settings, pen, prefix, text) == pen
    ensures RightPen(settings, pen, tid, depth, name, func, show, time, stamp, spent) ==
      pen.(ledger := pen.ledger + [Charge(name, spent.0, spent.1)])
  {
  }
}
