/** The log printer (output.c): one open line, and the decision between finishing and breaking it off. */
module Printer {
  import opened Base
  import opened LogText
  import Tracer

  /** The index of the first function called `name`, from `i` on, or the number of functions. */
  function FindFunction(functions: seq<Function>, name: string, i: nat): (j: nat)
    requires i <= |functions|
    ensures i <= j <= |functions|
    ensures j < |functions| ==> functions[j].name == name
    ensures forall k :: i <= k < j ==> functions[k].name != name
    decreases |functions| - i
  {
    if i == |functions| || functions[i].name == name then i else FindFunction(functions, name, i + 1)
  }

  function Lookup(functions: seq<Function>, name: string): Option<Function> {
    var j := FindFunction(functions, name, 0);
    if j < |functions| then Some(functions[j]) else None
  }

  ghost predicate AllFit(functions: seq<Function>) {
    forall i :: 0 <= i < |functions| ==> functions[i].paramsRight <= |functions[i].argTypes|
  }

  lemma LookupFits(functions: seq<Function>, name: string)
    requires AllFit(functions)
    ensures Fits(Lookup(functions, name))
  {
  }

  class Printer {
    const settings: Settings
    const functions: seq<Function>
    var currentPid: nat
    var currentDepth: nat
    var currentColumn: nat
    var out: string
    var ledger: seq<Charge>
    ghost var items: seq<Tracer.Item>

    ghost predicate Valid() {
      AllFit(functions)
    }

    ghost function State(): Tracer.PrinterState
      reads this
    {
      Tracer.PrinterState(currentPid, currentDepth, items)
    }

    ghost function ThePen(): Pen
      reads this
    {
      Pen(currentPid, currentDepth, currentColumn, out, ledger)
    }

    constructor (settings: Settings, functions: seq<Function>)
      requires AllFit(functions)
      ensures Valid() && this.settings == settings && this.functions == functions
      ensures State() == Tracer.PrinterState(0, 0, []) && ThePen() == Pen(0, 0, 0, "", [])
    {
      this.settings, this.functions := settings, functions;
      currentPid, currentDepth, currentColumn, out, ledger, items := 0, 0, 0, "", [], [];
    }

    /** current_column += fprintf(output, "%s", s) */
    method Count(s: string)
      modifies this`out, this`currentColumn
      ensures out == old(out) + s && currentColumn == old(currentColumn) + |s|
    {
      out := out + s;
      currentColumn := currentColumn + |s|;
    }

    method BreakOff()
      modifies this`out
      ensures out == Broken(old(ThePen()))
    {
      if currentPid != 0 {
        out := out + UNFINISHED;
      } else {
        assert out + "" == out;
      }
    }

    method BeginOfLine(tid: nat, depth: nat, isCall: bool, stamp: string)
      modifies this`out, this`currentColumn
      ensures out == old(out) + LinePrefix(settings, tid, depth, isCall, stamp)
      ensures currentColumn == |LinePrefix(settings, tid, depth, isCall, stamp)|
    {
      ghost var before := out;
      currentColumn := 0;
      var tag := match settings.tag
        case NoTag => ""
        case PidTag => Decimal(tid) + " "
        case TidTag => "[tid " + Decimal(tid) + "] ";
      Count(tag);
      Count(stamp);
      var indent := "";
      if settings.indent > 0 && isCall {
        assert settings.indent * depth >= 0;
        indent := Spaces(settings.indent * depth);
      }
      Count(indent);
      assert out == before + (tag + stamp + indent);
    }

    method Name2Func(name: string) returns (func: Option<Function>)
      ensures func == Lookup(functions, name)
      ensures Valid() ==> Fits(func)
    {
      var i := 0;
      while i < |functions|
        invariant 0 <= i <= |functions|
        invariant FindFunction(functions, name, 0) == FindFunction(functions, name, i)
      {
        if functions[i].name == name {
          return Some(functions[i]);
        }
        i := i + 1;
      }
      return None;
    }

    /** The argument loops: arguments `from` to `to`, each but the last followed by a comma. */
    method ShowArgs(show: Display, types: seq<ArgType>, from: nat, to: nat)
      requires from <= to <= |types|
      modifies this`out, this`currentColumn
      ensures out == old(out) + ListArgs(show, types, from, to)
      ensures currentColumn == old(currentColumn) + |ListArgs(show, types, from, to)|
    {
      ghost var before, column := out, currentColumn;
      var i := from;
      while i + 1 < to
        invariant from <= i <= to && (from < to ==> i < to)
        invariant out + ListArgs(show, types, i, to) == before + ListArgs(show, types, from, to)
        invariant currentColumn + |ListArgs(show, types, i, to)| == column + |ListArgs(show, types, from, to)|
      {
        ghost var rest := ListArgs(show, types, i + 1, to);
        ghost var text := out;
        assert text + (show(i, types[i]) + ", " + rest) == text + show(i, types[i]) + ", " + rest;
        Count(show(i, types[i]));
        Count(", ");
        i := i + 1;
      }
      if from < to {
        Count(show(i, types[i]));
      }
    }

    method OutputLeft(tid: nat, depth: nat, name: string, show: Display, stamp: string, ghost o: Tracer.Options,
                      ghost call: nat)
      requires Valid() && o.countOnly == settings.countOnly
      modifies this
      ensures ThePen() == LeftPen(settings, old(ThePen()), tid, depth, name, Lookup(functions, name), show, stamp)
      ensures State() == Tracer.PrintLeft(old(State()), o, tid, depth, call)
    {
      if settings.countOnly {
        return;
      }
      items := items + [Tracer.Left(tid, depth, call, currentPid != 0)];
      BreakOff();
      currentPid := tid;
      currentDepth := depth;
      WriteCall(tid, depth, name, show, stamp);
    }

    /** The text of a call: its beginning and the arguments shown now. */
    method WriteCall(tid: nat, depth: nat, name: string, show: Display, stamp: string)
      requires Valid() && currentPid == tid
      modifies this`out, this`currentColumn
      ensures out == old(out) + LeftText(settings, tid, depth, name, Lookup(functions, name), show, stamp)
      ensures currentColumn == |LeftText(settings, tid, depth, name, Lookup(functions, name), show, stamp)|
    {
      hide LinePrefix, CallMark;
      ghost var before := out;
      ghost var head := BeginCall(tid, depth, name, CallMark(currentPid, depth, true), "(", stamp);
      var func := Name2Func(name);
      ShowLeft(func, show);
      assert before + head + LeftArgs(func, show) == before + (head + LeftArgs(func, show));
    }

    /** The start of a line about a call. */
    method BeginCall(tid: nat, depth: nat, name: string, mark: string, sign: string, stamp: string)
      returns (ghost head: string)
      modifies this`out, this`currentColumn
      ensures head == LinePrefix(settings, tid, depth, true, stamp) + mark + name + sign
      ensures out == old(out) + head && currentColumn == |head|
    {
      ghost var before := out;
      BeginOfLine(tid, depth, true, stamp);
      ghost var prefix := LinePrefix(settings, tid, depth, true, stamp);
      Count(mark);
      Count(name);
      Count(sign);
      head := prefix + mark + name + sign;
      assert before + prefix + mark + name + sign == before + head;
    }

    /** The arguments shown at the call; without a known function, five of unknown type. */
    method ShowLeft(func: Option<Function>, show: Display)
      requires Fits(func)
      modifies this`out, this`currentColumn
      ensures out == old(out) + LeftArgs(func, show)
      ensures currentColumn == old(currentColumn) + |LeftArgs(func, show)|
    {
      ghost var before := out;
      ShowArgs(show, ArgTypes(func), 0, Split(func));
      var more := "";
      if 0 < Split(func) < |ArgTypes(func)| {
        more := ", ";
      }
      Count(more);
      assert out == before + (ListArgs(show, ArgTypes(func), 0, Split(func)) + more);
    }

    method OutputRight(tid: nat, depth: nat, name: string, show: Display, time: string, stamp: string,
                       spent: (nat, nat), ghost o: Tracer.Options, ghost call: nat)
      requires Valid() && tid != 0 && o.countOnly == settings.countOnly
      modifies this
      ensures ThePen() ==
        RightPen(settings, old(ThePen()), tid, depth, name, Lookup(functions, name), show, time, stamp, spent)
      ensures State() == Tracer.PrintRight(old(State()), o, tid, depth, call)
    {
      if settings.countOnly {
        ledger := ledger + [Charge(name, spent.0, spent.1)];
        return;
      }
      var func := Name2Func(name);
      ghost var p := State();
      LeaveLine(tid, depth);
      WriteReturn(tid, depth, name, func, show, time, stamp);
      currentPid := 0;
      currentColumn := 0;
      items := Tracer.PrintRight(p, o, tid, depth, call).items;
    }

    /** Breaks the open line off unless the return at `depth` goes on it. */
    method LeaveLine(tid: nat, depth: nat)
      requires tid != 0
      modifies this`out, this`currentPid
      ensures currentPid == if Joins(old(ThePen()), tid, depth) then tid else 0
      ensures out == if Joins(old(ThePen()), tid, depth) then old(out) else Broken(old(ThePen()))
    {
      if currentPid != 0 && (currentPid != tid || currentDepth != depth) {
        BreakOff();
        currentPid := 0;
      } else {
        NothingBroken(ThePen());
      }
    }

    /** The text of a return, on the open line if there still is one. */
    method WriteReturn(tid: nat, depth: nat, name: string, func: Option<Function>, show: Display, time: string,
                       stamp: string)
      requires Fits(func) && (currentPid == tid || currentPid == 0) && tid != 0
      modifies this`out, this`currentColumn
      ensures var joins := old(currentPid) == tid;
        var head := if joins then "" else ResumedHead(settings, tid, depth, name, stamp);
        var text := head + RightArgs(func, show) + ") ";
        var column := (if joins then old(currentColumn) else 0) + |text|;
        out == old(out) + text + Pad(settings.alignColumn, column) + "= " + (ReturnValue(func, show) + time) + "\n"
    {
      hide LinePrefix, CallMark, RightArgs, ReturnValue, Pad;
      ghost var whole := out;
      ghost var head := "";
      assert whole + head == whole;
      if currentPid != tid {
        head := BeginCall(tid, depth, name, CallMark(currentPid, depth, false), " resumed> ", stamp);
      }
      FinishLine(func, show, time, whole, head);
    }

    /** The arguments that waited for the return, the alignment and the value. */
    method FinishLine(func: Option<Function>, show: Display, time: string, ghost whole: string, ghost head: string)
      requires Fits(func) && out == whole + head && currentColumn >= |head|
      modifies this`out, this`currentColumn
      ensures var text := head + RightArgs(func, show) + ") ";
        out == whole + text + Pad(settings.alignColumn, old(currentColumn) - |head| + |text|) + "= " +
               (ReturnValue(func, show) + time) + "\n"
    {
      hide ReturnValue, Pad;
      ShowWaiting(func, show, whole, head);
      out := out + Pad(settings.alignColumn, currentColumn);
      ghost var padded := out;
      out := out + "= ";
      out := out + ReturnValue(func, show);
      out := out + time;
      assert out == padded + "= " + (ReturnValue(func, show) + time);
      out := out + "\n";
    }

    method ShowWaiting(func: Option<Function>, show: Display, ghost whole: string, ghost head: string)
      requires Fits(func) && out == whole + head
      modifies this`out, this`currentColumn
      ensures var text := head + RightArgs(func, show) + ") ";
        out == whole + text && currentColumn == old(currentColumn) - |head| + |text|
    {
      hide ListArgs;
      ShowArgs(show, ArgTypes(func), Split(func), |ArgTypes(func)|);
      Count(") ");
      assert out == whole + (head + RightArgs(func, show) + ") ");
    }

    /** output_line; `thread` is the thread and depth a line is for, if any, and no `text` only closes the line. */
    method OutputLine(thread: Option<(nat, nat)>, text: Option<string>, stamp: string, ghost o: Tracer.Options)
      requires o.countOnly == settings.countOnly
      modifies this
      ensures ThePen() == LinePen(settings, old(ThePen()),
        (match thread case None => "" case Some((tid, depth)) => LinePrefix(settings, tid, depth, false, stamp)), text)
      ensures text.Some? ==> State() == Tracer.PrintLine(old(State()), o)
    {
      if settings.countOnly {
        return;
      }
      if text.Some? {
        items := items + [Tracer.Line(currentPid != 0)];
      }
      BreakOff();
      currentPid := 0;
      if text == None {
        return;
      }
      currentColumn := 0;
      ghost var broken := out;
      assert broken + "" == broken;
      if thread.Some? {
        BeginOfLine(thread.value.0, thread.value.1, false, stamp);
      }
      out := out + text.value + "\n";
      currentColumn := 0;
    }
  }
}
