/** The text of the log: lines, columns and argument lists (output.c), as functions. */
module LogText {
  import opened Base
  import ConfigParser

  type Function = ConfigParser.Function
  type ArgType = ConfigParser.ArgType

  /** How a line starts: nothing, "1234 " when writing to a file with -p or -f, or "[tid 1234] ". */
  datatype Tag = NoTag | PidTag | TidTag

  /** -c, -a, -n and the tag; -r and -t only supply the time stamp handed to each print. */
  datatype Settings = Settings(countOnly: bool, alignColumn: int, indent: int, tag: Tag)

  /** current_pid, current_depth, current_column, everything written so far and, under -c, charged so far. */
  datatype Pen = Pen(pid: nat, depth: nat, column: nat, out: string, ledger: seq<Charge>)

  /** What display_arg writes for argument `i` (-1 for the returned value) as a given type. */
  type Display = (int, ArgType) -> string

  const UNFINISHED := " <unfinished ...>\n"

  function LinePrefix(o: Settings, tid: nat, depth: nat, isCall: bool, stamp: string): string {
    (match o.tag
     case NoTag => ""
     case PidTag => Decimal(tid) + " "
     case TidTag => "[tid " + Decimal(tid) + "] ") +
    stamp +
    (if o.indent > 0 && isCall then Spaces(o.indent * depth) else "")
  }

  /** add_prefix_space */
  function CallMark(pid: nat, depth: nat, isLeft: bool): string {
    "[" + PadLeft(5, Decimal(pid)) + "] " +
    Spaces(if depth > MAX_CALLDEPTH then MAX_CALLDEPTH else depth) +
    (if isLeft then "+[" else "-[") + PadLeft(2, Decimal(depth)) + "]"
  }

  // --- arguments ---

  /** Arguments `from` to `to`, separated by commas. */
  function ListArgs(show: Display, types: seq<ArgType>, from: nat, to: nat): string
    requires from <= to <= |types|
    decreases |types| - from
  {
    if from == to then ""
    else if from + 1 == to then show(from, types[from])
    else show(from, types[from]) + ", " + ListArgs(show, types, from + 1, to)
  }

  const UNKNOWN_ARGS: seq<ArgType> := [ConfigParser.Unknown, ConfigParser.Unknown, ConfigParser.Unknown,
                                      ConfigParser.Unknown, ConfigParser.Unknown]

  predicate Fits(func: Option<Function>) {
    func.Some? ==> func.value.paramsRight <= |func.value.argTypes|
  }

  function ArgTypes(func: Option<Function>): seq<ArgType> {
    if func.Some? then func.value.argTypes else UNKNOWN_ARGS
  }

  /** How many arguments are shown when the function is called; the rest wait for its return. */
  function Split(func: Option<Function>): (k: nat)
    requires Fits(func)
    ensures k <= |ArgTypes(func)|
  {
    if func.Some? then |func.value.argTypes| - func.value.paramsRight else 5
  }

  function LeftArgs(func: Option<Function>, show: Display): string
    requires Fits(func)
  {
    ListArgs(show, ArgTypes(func), 0, Split(func)) +
    if 0 < Split(func) < |ArgTypes(func)| then ", " else ""
  }

  function RightArgs(func: Option<Function>, show: Display): string
    requires Fits(func)
  {
    ListArgs(show, ArgTypes(func), Split(func), |ArgTypes(func)|)
  }

  function ReturnValue(func: Option<Function>, show: Display): string {
    match func
    case None => show(-1, ConfigParser.Unknown)
    case Some(f) => if f.returnType == ConfigParser.Void then "<void>" else show(-1, f.returnType)
  }

  lemma {:induction false} ListSplit(show: Display, types: seq<ArgType>, from: nat, mid: nat, to: nat)
    requires from <= mid <= to <= |types|
    ensures ListArgs(show, types, from, to) == ListArgs(show, types, from, mid) +
      (if from < mid < to then ", " else "") + ListArgs(show, types, mid, to)
    decreases |types| - from
  {
    if from < mid {
      ListSplit(show, types, from + 1, mid, to);
    }
  }

  /** The call and the return together show every argument exactly once, in order. */
  lemma EveryArgumentOnce(func: Option<Function>, show: Display)
    requires Fits(func)
    ensures LeftArgs(func, show) + RightArgs(func, show) == ListArgs(show, ArgTypes(func), 0, |ArgTypes(func)|)
  {
    ListSplit(show, ArgTypes(func), 0, Split(func), |ArgTypes(func)|);
  }

  // --- the three prints ---

  function Broken(pen: Pen): string {
    pen.out + if pen.pid != 0 then UNFINISHED else ""
  }

  lemma NothingBroken(pen: Pen)
    ensures pen.pid == 0 ==> Broken(pen) == pen.out
  {
    assert pen.out + "" == pen.out;
  }

  /** How a printed call begins. */
  function LeftHead(o: Settings, tid: nat, depth: nat, name: string, stamp: string): string {
    LinePrefix(o, tid, depth, true, stamp) + CallMark(tid, depth, true) + name + "("
  }

  function LeftText(o: Settings, tid: nat, depth: nat, name: string, func: Option<Function>, show: Display,
                    stamp: string): string
    requires Fits(func)
  {
    LeftHead(o, tid, depth, name, stamp) + LeftArgs(func, show)
  }

  function LeftPen(o: Settings, pen: Pen, tid: nat, depth: nat, name: string, func: Option<Function>,
                   show: Display, stamp: string): Pen
    requires Fits(func)
  {
    if o.countOnly then pen
    else
      var body := LeftText(o, tid, depth, name, func, show, stamp);
      Pen(tid, depth, |body|, Broken(pen) + body, pen.ledger)
  }

  /** Whether a return at `depth` goes on the open line. */
  predicate Joins(pen: Pen, tid: nat, depth: nat) {
    pen.pid == tid && pen.depth == depth
  }

  /** tabto */
  function Pad(align: int, column: nat): string {
    if column < align - 1 then Spaces(align - 1 - column) else ""
  }

  /** What is on the line before the return's own text: the call it completes, or a new beginning. */
  function RightHead(o: Settings, pen: Pen, tid: nat, depth: nat, name: string, stamp: string): string {
    if Joins(pen, tid, depth) then "" else ResumedHead(o, tid, depth, name, stamp)
  }

  function ResumedHead(o: Settings, tid: nat, depth: nat, name: string, stamp: string): string {
    LinePrefix(o, tid, depth, true, stamp) + CallMark(0, depth, false) + name + " resumed> "
  }

  /** A return whose line goes on with `text` and ends, after the alignment column, with `value`. */
  function Finish(o: Settings, pen: Pen, joins: bool, text: string, value: string): Pen {
    if o.countOnly then pen
    else
      var column := (if joins then pen.column else 0) + |text|;
      Pen(0, pen.depth, 0,
          (if joins then pen.out else Broken(pen)) + text + Pad(o.alignColumn, column) + "= " + value + "\n",
          pen.ledger)
  }

  function RightText(o: Settings, pen: Pen, tid: nat, depth: nat, name: string, func: Option<Function>,
                     show: Display, stamp: string): string
    requires Fits(func)
  {
    RightHead(o, pen, tid, depth, name, stamp) + RightArgs(func, show) + ") "
  }

  function RightPen(o: Settings, pen: Pen, tid: nat, depth: nat, name: string, func: Option<Function>,
                    show: Display, time: string, stamp: string, spent: (nat, nat)): Pen
    requires Fits(func)
  {
    if o.countOnly then pen.(ledger := pen.ledger + [Charge(name, spent.0, spent.1)])
    else
      Finish(o, pen, Joins(pen, tid, depth), RightText(o, pen, tid, depth, name, func, show, stamp),
             ReturnValue(func, show) + time)
  }

  function LinePen(o: Settings, pen: Pen, prefix: string, text: Option<string>): Pen {
    if o.countOnly then pen
    else match text
      case None => Pen(0, pen.depth, pen.column, Broken(pen), pen.ledger)
      case Some(t) => Pen(0, pen.depth, 0, Broken(pen) + prefix + t + "\n", pen.ledger)
  }

  /** Two threads' resumed lines differ in the prefix alone: where the thread id seems to stand there is always a zero,
      and the arguments end in a parenthesis even when all of them were shown before. */
  lemma {:induction false} ResumedLine(o: Settings, pen: Pen, tid: nat, depth: nat, name: string,
                                       func: Option<Function>, show: Display, stamp: string)
    requires !Joins(pen, tid, depth) && Fits(func) && depth <= MAX_CALLDEPTH
    ensures RightText(o, pen, tid, depth, name, func, show, stamp) ==
      LinePrefix(o, tid, depth, true, stamp) +
      ("[    0] " + Spaces(depth) + "-[" + PadLeft(2, Decimal(depth)) + "]") +
      name + " resumed> " + RightArgs(func, show) + ") "
  {
    hide LinePrefix, RightArgs, CallMark;
    NoThreadMark(depth);
  }

  lemma {:induction false} NoThreadMark(depth: nat)
    requires depth <= MAX_CALLDEPTH
    ensures CallMark(0, depth, false) == "[    0] " + Spaces(depth) + "-[" + PadLeft(2, Decimal(depth)) + "]"
  {
    assert Spaces(2) == "  ";
    assert Spaces(4) == "    ";
    assert "[" + PadLeft(5, Decimal(0)) + "] " == "[    0] ";
    hide PadLeft, Decimal, Spaces;
  }

  // --- lines and columns ---

  predicate Plain(s: string) {
    '\n' !in s
  }

  /** Where the last line begins: after the last line end, or at the start. */
  function LineBegins(s: string): (n: nat)
    ensures n <= |s|
  {
    if s == "" || s[|s| - 1] == '\n' then |s| else LineBegins(s[..|s| - 1])
  }

  lemma {:induction false} LineBeginsThere(s: string)
    ensures var n := LineBegins(s);
      (n > 0 ==> s[n - 1] == '\n') && forall i :: n <= i < |s| ==> s[i] != '\n'
  {
    if s != "" && s[|s| - 1] != '\n' {
      LineBeginsThere(s[..|s| - 1]);
    }
  }

  /** What has been written since the last line end. */
  function Tail(s: string): string {
    s[LineBegins(s)..]
  }

  lemma {:induction false} LineGoesOn(s: string, t: string)
    requires Plain(t)
    ensures LineBegins(s + t) == LineBegins(s)
    decreases |t|
  {
    if t == "" {
      assert s + t == s;
    } else {
      var init := t[..|t| - 1];
      assert (s + t)[..|s + t| - 1] == s + init;
      LineGoesOn(s, init);
    }
  }

  lemma TailAppend(s: string, t: string)
    requires Plain(t)
    ensures Tail(s + t) == Tail(s) + t
  {
    LineGoesOn(s, t);
  }

  lemma TailEnds(s: string)
    ensures Tail(s + "\n") == ""
  {
  }

  /** Complete lines, followed by one open line exactly when a call is waiting for its return; the column is that
      line's length. */
  predicate LineOk(pen: Pen) {
    if pen.pid == 0 then Tail(pen.out) == ""
    else Tail(pen.out) != "" && pen.column == |Tail(pen.out)|
  }

  predicate PlainDisplay(func: Option<Function>, show: Display)
    requires Fits(func)
  {
    Plain(LeftArgs(func, show)) && Plain(RightArgs(func, show)) && Plain(ReturnValue(func, show))
  }

  lemma BrokenEndsLine(pen: Pen)
    requires LineOk(pen)
    ensures Tail(Broken(pen)) == ""
  {
    if pen.pid != 0 {
      assert Broken(pen) == (pen.out + " <unfinished ...>") + "\n";
      TailEnds(pen.out + " <unfinished ...>");
    }
  }

  lemma {:induction false} DecimalPlain(n: nat)
    ensures Plain(Decimal(n))
  {
    assert forall i :: 0 <= i < |Decimal(n)| ==> Decimal(n)[i] != '\n';
  }

  lemma PadPlain(width: nat, n: nat)
    ensures Plain(PadLeft(width, Decimal(n)))
  {
    DecimalPlain(n);
    assert |Decimal(n)| < width ==> Plain(Spaces(width - |Decimal(n)|));
  }

  lemma PrefixPlain(o: Settings, tid: nat, depth: nat, isCall: bool, stamp: string)
    requires Plain(stamp)
    ensures Plain(LinePrefix(o, tid, depth, isCall, stamp))
  {
    DecimalPlain(tid);
    if o.indent > 0 {
      assert o.indent * depth >= 0;
      assert Plain(Spaces(o.indent * depth));
    }
  }

  lemma {:induction false} MarkPlain(pid: nat, depth: nat, isLeft: bool)
    ensures Plain(CallMark(pid, depth, isLeft))
  {
    PadPlain(5, pid);
    PadPlain(2, depth);
    assert Plain(Spaces(if depth > MAX_CALLDEPTH then MAX_CALLDEPTH else depth));
  }

  lemma {:induction false} LeftKeepsLines(o: Settings, pen: Pen, tid: nat, depth: nat, name: string,
                                          func: Option<Function>, show: Display, stamp: string)
    requires LineOk(pen) && tid != 0 && Fits(func) && PlainDisplay(func, show) && Plain(name) && Plain(stamp)
    ensures LineOk(LeftPen(o, pen, tid, depth, name, func, show, stamp))
  {
    var body := LeftHead(o, tid, depth, name, stamp) + LeftArgs(func, show);
    PrefixPlain(o, tid, depth, true, stamp);
    MarkPlain(tid, depth, true);
    BrokenEndsLine(pen);
    TailAppend(Broken(pen), body);
  }

  lemma {:induction false} LineKeepsLines(o: Settings, pen: Pen, prefix: string, text: Option<string>)
    requires LineOk(pen)
    ensures LineOk(LinePen(o, pen, prefix, text))
  {
    BrokenEndsLine(pen);
    if text.Some? {
      TailEnds(Broken(pen) + prefix + text.value);
    }
  }

  /** A line on which `text` is followed by '=' in the alignment column, or at once when it is longer. */
  predicate Aligned(line: string, text: string, align: int) {
    var column := if |text| < align - 1 then align - 1 else |text|;
    && |line| > column && line[column] == '=' && text <= line && Plain(line)
    && forall i :: |text| <= i < column ==> line[i] == ' '
  }

  lemma PadAligns(text: string, align: int, rest: string)
    requires Plain(text) && Plain(rest)
    ensures Aligned(text + Pad(align, |text|) + "= " + rest, text, align)
  {
  }

  lemma {:induction false} HeadPlain(o: Settings, pen: Pen, tid: nat, depth: nat, name: string, stamp: string)
    requires Plain(name) && Plain(stamp)
    ensures Plain(RightHead(o, pen, tid, depth, name, stamp))
  {
    PrefixPlain(o, tid, depth, true, stamp);
    MarkPlain(0, depth, false);
  }

  lemma Regroup(start: string, before: string, text: string, pad: string, rest: string)
    ensures (start + before) + text + pad + "= " + rest == start + ((before + text) + pad + "= " + rest)
  {
  }

  /** Completing the open line `before` with `text`, padding and `rest`. */
  lemma {:induction false} LineCompleted(whole: string, before: string, text: string, align: int, rest: string)
    returns (start: string, line: string)
    requires |before| <= |whole| && before == whole[|whole| - |before|..] && Tail(whole[..|whole| - |before|]) == ""
    requires Plain(before + text) && Plain(rest)
    ensures whole + text + Pad(align, |before + text|) + "= " + rest == start + line
    ensures Tail(start) == "" && Aligned(line, before + text, align)
  {
    start := whole[..|whole| - |before|];
    line := (before + text) + Pad(align, |before + text|) + "= " + rest;
    assert whole == start + before;
    Regroup(start, before, text, Pad(align, |before + text|), rest);
    PadAligns(before + text, align, rest);
  }

  lemma EndedTail(s: string)
    requires s == "" || s[|s| - 1] == '\n'
    ensures Tail(s) == ""
  {
  }

  lemma LineStart(s: string)
    ensures |Tail(s)| <= |s| && Tail(s) == s[|s| - |Tail(s)|..] && Plain(Tail(s))
    ensures Tail(s[..|s| - |Tail(s)|]) == ""
  {
    hide LineBegins;
    LineBeginsThere(s);
    EndedTail(s[..LineBegins(s)]);
  }

  /** What is on the line already when a return goes on with it, and the whole log so far. */
  function OnLine(pen: Pen, joins: bool): string {
    if joins then Tail(pen.out) else ""
  }

  function SoFar(pen: Pen, joins: bool): string {
    if joins then pen.out else Broken(pen)
  }

  lemma LineBegun(pen: Pen, joins: bool)
    requires LineOk(pen) && (joins ==> pen.pid != 0)
    ensures var before, whole := OnLine(pen, joins), SoFar(pen, joins);
      && |before| <= |whole| && before == whole[|whole| - |before|..] && Plain(before)
      && Tail(whole[..|whole| - |before|]) == ""
  {
    hide Tail;
    if joins {
      LineStart(pen.out);
    } else {
      BrokenEndsLine(pen);
      assert Broken(pen)[..|Broken(pen)|] == Broken(pen);
    }
  }

  lemma FinishOut(o: Settings, pen: Pen, joins: bool, text: string, value: string)
    requires LineOk(pen) && !o.countOnly && (joins ==> pen.pid != 0)
    ensures var pen' := Finish(o, pen, joins, text, value);
      && pen'.pid == 0
      && pen'.out == SoFar(pen, joins) + text + Pad(o.alignColumn, |OnLine(pen, joins) + text|) + "= " + value + "\n"
  {
    hide Tail, Pad, Broken;
  }

  lemma {:induction false} FinishCompletesLine(o: Settings, pen: Pen, joins: bool, text: string, value: string)
    returns (start: string, line: string)
    requires LineOk(pen) && !o.countOnly && (joins ==> pen.pid != 0) && Plain(text) && Plain(value)
    ensures LineOk(Finish(o, pen, joins, text, value))
    ensures Finish(o, pen, joins, text, value).out == start + line + "\n" && Tail(start) == ""
    ensures Aligned(line, OnLine(pen, joins) + text, o.alignColumn)
  {
    hide Tail, Pad, Aligned, Finish, OnLine, SoFar;
    LineBegun(pen, joins);
    FinishOut(o, pen, joins, text, value);
    start, line := LineCompleted(SoFar(pen, joins), OnLine(pen, joins), text, o.alignColumn, value);
    TailEnds(start + line);
  }

  /** A return completes a line: what was on it, its own text, spaces up to the alignment column, '=', the value. */
  lemma {:induction false} RightCompletesLine(o: Settings, pen: Pen, tid: nat, depth: nat, name: string,
                                              func: Option<Function>, show: Display, time: string, stamp: string,
                                              spent: (nat, nat))
    returns (start: string, line: string)
    requires LineOk(pen) && tid != 0 && !o.countOnly && Fits(func)
    requires PlainDisplay(func, show) && Plain(name) && Plain(stamp) && Plain(time)
    ensures LineOk(RightPen(o, pen, tid, depth, name, func, show, time, stamp, spent))
    ensures RightPen(o, pen, tid, depth, name, func, show, time, stamp, spent).out == start + line + "\n"
    ensures Tail(start) == "" && Aligned(line,
      OnLine(pen, Joins(pen, tid, depth)) + RightText(o, pen, tid, depth, name, func, show, stamp),
      o.alignColumn)
  {
    HeadPlain(o, pen, tid, depth, name, stamp);
    start, line := FinishCompletesLine(o, pen, Joins(pen, tid, depth),
                                       RightText(o, pen, tid, depth, name, func, show, stamp),
                                       ReturnValue(func, show) + time);
  }
}
