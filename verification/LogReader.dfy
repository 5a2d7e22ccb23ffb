/** Reading the log back: whose call or return a line shows, with which arguments and which value. */
module LogReader {
  import opened Base
  import opened ConfigParser
  import opened LogText

  // --- arguments ---

  /** Texts with commas between them. */
  function Commas(texts: seq<string>): string {
    if texts == [] then ""
    else if |texts| == 1 then texts[0]
    else texts[0] + ", " + Commas(texts[1..])
  }

  /** The texts of arguments `from` to `to`. */
  function Texts(show: Display, types: seq<ArgType>, from: nat, to: nat): (texts: seq<string>)
    requires from <= to <= |types|
    ensures |texts| == to - from
  {
    seq(to - from, i requires 0 <= i < to - from => show(from + i, types[from + i]))
  }

  lemma {:induction false} ListIsCommas(show: Display, types: seq<ArgType>, from: nat, to: nat)
    requires from <= to <= |types|
    ensures ListArgs(show, types, from, to) == Commas(Texts(show, types, from, to))
    decreases |types| - from
  {
    if from + 1 < to {
      ListIsCommas(show, types, from + 1, to);
      assert Texts(show, types, from, to)[1..] == Texts(show, types, from + 1, to);
    }
  }

  /** Of a known function the last `paramsRight` arguments wait for the return; a comma ends the call's text when some
      are shown and some wait. */
  lemma {:induction false} ArgumentsParted(f: Function, show: Display)
    requires f.paramsRight <= |f.argTypes|
    ensures var n, k := |f.argTypes|, |f.argTypes| - f.paramsRight;
      && LeftArgs(Some(f), show) == Commas(Texts(show, f.argTypes, 0, k)) + (if 0 < k < n then ", " else "")
      && RightArgs(Some(f), show) == Commas(Texts(show, f.argTypes, k, n))
  {
    var n, k := |f.argTypes|, |f.argTypes| - f.paramsRight;
    ListIsCommas(show, f.argTypes, 0, k);
    ListIsCommas(show, f.argTypes, k, n);
  }

  /** Of an unknown function five arguments of unknown type stand at the call, and none at the return. */
  lemma {:induction false} UnknownArguments(show: Display)
    ensures LeftArgs(None, show) == Commas(seq(5, i => show(i, Unknown)))
    ensures RightArgs(None, show) == ""
  {
    ListIsCommas(show, UNKNOWN_ARGS, 0, 5);
    assert Texts(show, UNKNOWN_ARGS, 0, 5) == seq(5, i => show(i, Unknown));
  }

  /** The two displays show the arguments from `from` up to `to` alike. */
  ghost predicate Agree(show: Display, show': Display, from: int, to: int) {
    forall i, t :: from <= i < to ==> show(i, t) == show'(i, t)
  }

  lemma TextsAgree(show: Display, show': Display, types: seq<ArgType>, from: nat, to: nat)
    requires from <= to <= |types| && Agree(show, show', from, to)
    ensures Texts(show, types, from, to) == Texts(show', types, from, to)
  {
  }

  /** How many arguments a call shows. */
  function Early(func: Option<Function>): int {
    match func case None => 5 case Some(f) => |f.argTypes| - f.paramsRight
  }

  /** A call's line depends on the early arguments alone. */
  lemma {:induction false} CallShowsEarly(o: Settings, pen: Pen, tid: nat, depth: nat, name: string,
                                          func: Option<Function>, show: Display, show': Display, stamp: string)
    requires Fits(func) && Agree(show, show', 0, Early(func))
    ensures LeftPen(o, pen, tid, depth, name, func, show, stamp) ==
      LeftPen(o, pen, tid, depth, name, func, show', stamp)
  {
    hide LeftArgs;
    match func
    case None =>
      UnknownArguments(show);
      UnknownArguments(show');
      assert seq(5, i => show(i, Unknown)) == seq(5, i => show'(i, Unknown));
    case Some(f) =>
      ArgumentsParted(f, show);
      ArgumentsParted(f, show');
      TextsAgree(show, show', f.argTypes, 0, Early(func));
  }

  /** A return's line depends on the other arguments and the returned value, argument -1, alone; that of a void function
      not even on the value. */
  lemma {:induction false} ReturnShowsLate(o: Settings, pen: Pen, tid: nat, depth: nat, name: string,
                                           func: Option<Function>, show: Display, show': Display, time: string,
                                           stamp: string, spent: (nat, nat))
    requires Fits(func) && ((func.Some? && func.value.returnType == Void) || Agree(show, show', -1, 0))
    requires func.Some? ==> Agree(show, show', Early(func), |func.value.argTypes|)
    ensures RightPen(o, pen, tid, depth, name, func, show, time, stamp, spent) ==
      RightPen(o, pen, tid, depth, name, func, show', time, stamp, spent)
  {
    hide RightArgs, Finish, RightHead;
    match func
    case None =>
      UnknownArguments(show);
      UnknownArguments(show');
    case Some(f) =>
      ArgumentsParted(f, show);
      ArgumentsParted(f, show');
      TextsAgree(show, show', f.argTypes, Early(func), |f.argTypes|);
  }

  /** In terms of a configuration line: the arguments from the first '+' on wait. */
  lemma {:induction false} PlusParts(r: nat, name: string, args: seq<Argument>, layout: Layout)
    requires r < |TYPE_TABLE| && InTable(TYPE_TABLE, args) && |args| <= MAX_ARGS
    requires layout.gap > 0 && NoParens(layout.trailing) && (name == "" || name[0] != ' ')
    ensures var f := ParseLine(TYPE_TABLE, PrintLine(TYPE_TABLE, r, name, args, layout));
      && f.Some? && Fits(f) && Early(f) == FirstPlus(args)
      && (forall i :: 0 <= i < Early(f) ==> !args[i].plus) && (Early(f) < |args| ==> args[Early(f)].plus)
  {
    SignatureRoundTrip(r, name, args, layout);
  }

  // --- the returned value ---

  /** A return's line ends in '=', the value shown as the function's type says, and the time. */
  lemma {:induction false} ValueShown(o: Settings, pen: Pen, tid: nat, depth: nat, name: string, func: Option<Function>,
                                      show: Display, time: string, stamp: string, spent: (nat, nat))
    returns (before: string)
    requires Fits(func) && !o.countOnly
    ensures RightPen(o, pen, tid, depth, name, func, show, time, stamp, spent).out == before + "= " + (match func
        case None => show(-1, Unknown)
        case Some(f) => if f.returnType == Void then "<void>" else show(-1, f.returnType)) + time + "\n"
  {
    hide Joins, RightText, Pad, Broken;
    var joins, text := Joins(pen, tid, depth), RightText(o, pen, tid, depth, name, func, show, stamp);
    var column := (if joins then pen.column else 0) + |text|;
    before := (if joins then pen.out else Broken(pen)) + text + Pad(o.alignColumn, column);
    assert before + "= " + (ReturnValue(func, show) + time) + "\n" ==
      before + "= " + ReturnValue(func, show) + time + "\n";
  }

  // --- marks ---

  /** Where the digits at the start of `s` end. */
  function DigitsEnd(s: string): (k: nat)
    ensures k <= |s| && (k < |s| ==> !IsDigit(s[k])) && forall j :: 0 <= j < k ==> IsDigit(s[j])
  {
    if s != "" && IsDigit(s[0]) then 1 + DigitsEnd(s[1..]) else 0
  }

  /** The number `s` starts with, after any spaces, and what follows it. */
  function ReadNumber(s: string): (nat, string) {
    var t := Strip(s);
    (Atoi(t[..DigitsEnd(t)]), t[DigitsEnd(t)..])
  }

  lemma {:induction false} DigitsStop(digits: string, rest: string)
    requires (forall j :: 0 <= j < |digits| ==> IsDigit(digits[j])) && (rest == "" || !IsDigit(rest[0]))
    ensures DigitsEnd(digits + rest) == |digits|
    decreases |digits|
  {
    if digits == "" {
      assert digits + rest == rest;
    } else {
      assert (digits + rest)[1..] == digits[1..] + rest;
      DigitsStop(digits[1..], rest);
    }
  }

  lemma {:induction false} NumberReads(spaces: nat, n: nat, rest: string)
    requires rest == "" || !IsDigit(rest[0])
    ensures ReadNumber(Spaces(spaces) + (Decimal(n) + rest)) == (n, rest)
  {
    hide Atoi, Decimal;
    var digits := Decimal(n);
    var t := digits + rest;
    assert t[0] == digits[0];
    StripSpaces(spaces, t);
    DigitsStop(digits, rest);
    assert t[..|digits|] == digits && t[|digits|..] == rest;
    AtoiDecimal(n);
  }

  lemma {:induction false} FieldReads(width: nat, n: nat, rest: string)
    requires rest == "" || !IsDigit(rest[0])
    ensures ReadNumber(PadLeft(width, Decimal(n)) + rest) == (n, rest)
  {
    hide ReadNumber, Decimal, Atoi;
    var digits := Decimal(n);
    var spaces := if |digits| < width then width - |digits| else 0;
    NumberReads(spaces, n, rest);
    assert Spaces(spaces) + (digits + rest) == Spaces(spaces) + digits + rest;
    assert "" + digits == digits;
  }

  /** Which thread a mark names, how far it is indented, whether it is a call's, and at which depth. */
  datatype Mark = Mark(pid: nat, indent: nat, isCall: bool, depth: nat)

  /** A mark such as "[ 1234]   +[ 2]", and what follows it. */
  function ReadMark(s: string): Option<(Mark, string)> {
    if s == "" || s[0] != '[' then None
    else
      var (pid, s1) := ReadNumber(s[1..]);
      if |s1| < 2 || s1[0] != ']' || s1[1] != ' ' then None
      else
        var s2 := Strip(s1[2..]);
        match ReadDepth(s2)
        case None => None
        case Some((isCall, depth, rest)) => Some((Mark(pid, |s1| - 2 - |s2|, isCall, depth), rest))
  }

  /** The second half of a mark: a plus for a call or a minus for a return, and the depth. */
  function ReadDepth(s: string): Option<(bool, nat, string)> {
    if |s| < 2 || (s[0] != '+' && s[0] != '-') || s[1] != '[' then None
    else
      var (depth, t) := ReadNumber(s[2..]);
      if t == "" || t[0] != ']' then None else Some((s[0] == '+', depth, t[1..]))
  }

  lemma {:induction false} DepthReads(isCall: bool, depth: nat, rest: string)
    ensures ReadDepth((if isCall then "+[" else "-[") + (PadLeft(2, Decimal(depth)) + ("]" + rest))) ==
      Some((isCall, depth, rest))
  {
    hide ReadNumber, PadLeft, Decimal, Strip;
    var t := "]" + rest;
    var field := PadLeft(2, Decimal(depth));
    var s := (if isCall then "+[" else "-[") + (field + t);
    assert s[2..] == field + t && t[1..] == rest;
    FieldReads(2, depth, t);
  }

  /** Every mark reads back. */
  lemma {:induction false} MarkReads(pid: nat, depth: nat, isCall: bool, rest: string)
    requires depth <= MAX_CALLDEPTH
    ensures ReadMark(CallMark(pid, depth, isCall) + rest) == Some((Mark(pid, depth, isCall, depth), rest))
  {
    hide ReadNumber, PadLeft, Decimal, Strip, ReadDepth, CallMark;
    var s2 := (if isCall then "+[" else "-[") + (PadLeft(2, Decimal(depth)) + ("]" + rest));
    var field := PadLeft(5, Decimal(pid));
    var s1 := "] " + (Spaces(depth) + s2);
    var s := "[" + (field + s1);
    MarkParts(pid, depth, isCall, rest);
    assert s[1..] == field + s1 && s1[2..] == Spaces(depth) + s2;
    FieldReads(5, pid, s1);
    StripSpaces(depth, s2);
    DepthReads(isCall, depth, rest);
  }

  lemma MarkParts(pid: nat, depth: nat, isCall: bool, rest: string)
    requires depth <= MAX_CALLDEPTH
    ensures CallMark(pid, depth, isCall) + rest ==
      "[" + (PadLeft(5, Decimal(pid)) + ("] " + (Spaces(depth) +
        ((if isCall then "+[" else "-[") + (PadLeft(2, Decimal(depth)) + ("]" + rest))))))
  {
    hide PadLeft, Decimal, Spaces;
  }

  /** The marks of threads with up to five digits at depths with up to two stand in columns. */
  lemma {:induction false} MarkColumns(pid: nat, depth: nat, isCall: bool)
    requires pid < 100000 && depth < 100
    ensures |CallMark(pid, depth, isCall)| == 13 + depth
  {
    assert Pow10(5) == 100000 && Pow10(2) == 100;
    DecimalLength(pid, 5);
    DecimalLength(depth, 2);
  }

  // --- whole lines ---

  /** How a line shows a name: up to a parenthesis in a call, up to " resumed> " in a return on a line of its own. */
  function NameEnd(s: string): (k: nat)
    ensures k <= |s|
  {
    if s == "" || s[0] == '(' || s[0] == ' ' then 0 else 1 + NameEnd(s[1..])
  }

  datatype Shown = Shown(mark: Mark, name: string, rest: string)

  /** A line about a call or a return, from its mark on. */
  function ReadLine(s: string): Option<Shown> {
    match ReadMark(s)
    case None => None
    case Some((mark, t)) =>
      var k := NameEnd(t);
      var sign := if mark.isCall then "(" else " resumed> ";
      if sign <= t[k..] then Some(Shown(mark, t[..k], t[k + |sign|..])) else None
  }

  /** A name that can be told from what follows it. */
  predicate Readable(name: string) {
    forall i :: 0 <= i < |name| ==> name[i] != '(' && name[i] != ' '
  }

  lemma {:induction false} NameStops(name: string, rest: string)
    requires Readable(name) && rest != "" && (rest[0] == '(' || rest[0] == ' ')
    ensures NameEnd(name + rest) == |name|
    decreases |name|
  {
    if name == "" {
      assert name + rest == rest;
    } else {
      assert (name + rest)[1..] == name[1..] + rest;
      NameStops(name[1..], rest);
    }
  }

  lemma {:induction false} LineReads(pid: nat, depth: nat, isCall: bool, name: string, rest: string)
    requires depth <= MAX_CALLDEPTH && Readable(name)
    ensures var sign := if isCall then "(" else " resumed> ";
      ReadLine(CallMark(pid, depth, isCall) + (name + (sign + rest))) ==
      Some(Shown(Mark(pid, depth, isCall, depth), name, rest))
  {
    hide ReadMark, CallMark, Readable;
    var sign := if isCall then "(" else " resumed> ";
    var t := name + (sign + rest);
    MarkReads(pid, depth, isCall, t);
    NameStops(name, sign + rest);
    assert t[|name|..] == sign + rest && t[..|name|] == name && t[|name| + |sign|..] == rest;
  }

  /** A call's line, behind its prefix: the thread, the depth, the function's name, and then the arguments it shows. */
  lemma {:induction false} CallReads(o: Settings, pen: Pen, tid: nat, depth: nat, name: string, func: Option<Function>,
                                     show: Display, stamp: string) returns (line: string)
    requires Fits(func) && !o.countOnly && depth <= MAX_CALLDEPTH && Readable(name)
    ensures LeftPen(o, pen, tid, depth, name, func, show, stamp).out ==
      Broken(pen) + (LinePrefix(o, tid, depth, true, stamp) + line)
    ensures ReadLine(line) == Some(Shown(Mark(tid, depth, true, depth), name, LeftArgs(func, show)))
  {
    hide LinePrefix, CallMark, LeftArgs, Broken, ReadLine, Readable;
    line := CallMark(tid, depth, true) + (name + ("(" + LeftArgs(func, show)));
    LineReads(tid, depth, true, name, LeftArgs(func, show));
    var prefix := LinePrefix(o, tid, depth, true, stamp);
    assert prefix + CallMark(tid, depth, true) + name + "(" + LeftArgs(func, show) == prefix + line;
  }

  /** A return on a line of its own: the depth, the function's name, and then the arguments that waited. */
  lemma {:induction false} ReturnReads(o: Settings, pen: Pen, tid: nat, depth: nat, name: string,
                                       func: Option<Function>, show: Display, time: string, stamp: string,
                                       spent: (nat, nat))
    returns (line: string, more: string)
    requires Fits(func) && !o.countOnly && depth <= MAX_CALLDEPTH && Readable(name) && !Joins(pen, tid, depth)
    ensures RightPen(o, pen, tid, depth, name, func, show, time, stamp, spent).out ==
      Broken(pen) + (LinePrefix(o, tid, depth, true, stamp) + line)
    ensures ReadLine(line) == Some(Shown(Mark(0, depth, false, depth), name, RightArgs(func, show) + (") " + more)))
  {
    hide LinePrefix, CallMark, RightArgs, ReadLine, Readable, Broken, Pad, ReturnValue;
    var prefix, text := LinePrefix(o, tid, depth, true, stamp), RightText(o, pen, tid, depth, name, func, show, stamp);
    more := Pad(o.alignColumn, |text|) + "= " + (ReturnValue(func, show) + time) + "\n";
    var rest := RightArgs(func, show) + (") " + more);
    line := CallMark(0, depth, false) + (name + (" resumed> " + rest));
    LineReads(0, depth, false, name, rest);
    Told(Broken(pen), text, Pad(o.alignColumn, |text|), ReturnValue(func, show) + time);
    assert text + more == prefix + line;
  }

  lemma Told(out: string, text: string, pad: string, value: string)
    ensures out + text + pad + "= " + value + "\n" == out + (text + (pad + "= " + value + "\n"))
  {
  }

  /** A return on its call's line adds the arguments that waited. */
  lemma {:induction false} ReturnJoins(o: Settings, pen: Pen, tid: nat, depth: nat, name: string,
                                       func: Option<Function>, show: Display, time: string, stamp: string,
                                       spent: (nat, nat))
    returns (more: string)
    requires Fits(func) && !o.countOnly && Joins(pen, tid, depth)
    ensures RightPen(o, pen, tid, depth, name, func, show, time, stamp, spent).out ==
      pen.out + (RightArgs(func, show) + (") " + more))
  {
    hide RightArgs, Pad, ReturnValue;
    var text := RightText(o, pen, tid, depth, name, func, show, stamp);
    assert text == RightArgs(func, show) + ") ";
    var pad := Pad(o.alignColumn, pen.column + |text|);
    more := pad + "= " + (ReturnValue(func, show) + time) + "\n";
    Told(pen.out, text, pad, ReturnValue(func, show) + time);
    assert text + more == RightArgs(func, show) + (") " + more);
  }

  // --- prefixes and messages ---

  /** A line's prefix names the process by -p or -f, or the thread, holds the time stamp, and indents calls alone. */
  lemma {:induction false} PrefixReads(o: Settings, tid: nat, depth: nat, isCall: bool, stamp: string)
    requires stamp == "" || !IsDigit(stamp[0])
    ensures isCall && o.indent > 0 ==> o.indent * depth >= 0
    ensures var prefix := LinePrefix(o, tid, depth, isCall, stamp);
      var rest := stamp + Spaces(if isCall && o.indent > 0 then o.indent * depth else 0);
      match o.tag
      case NoTag => prefix == rest
      case PidTag => ReadNumber(prefix) == (tid, " " + rest)
      case TidTag => "[tid " <= prefix && ReadNumber(prefix[5..]) == (tid, "] " + rest)
  {
    hide ReadNumber, Decimal, Spaces, LinePrefix;
    PrefixParts(o, tid, depth, isCall, stamp);
    var rest := stamp + Spaces(if isCall && o.indent > 0 then o.indent * depth else 0);
    NumberFirst(tid, " " + rest);
    NumberFirst(tid, "] " + rest);
    if o.tag.TidTag? {
      assert ("[tid " + (Decimal(tid) + ("] " + rest)))[5..] == Decimal(tid) + ("] " + rest);
    }
  }

  lemma NumberFirst(n: nat, rest: string)
    requires rest == "" || !IsDigit(rest[0])
    ensures ReadNumber(Decimal(n) + rest) == (n, rest)
  {
    hide ReadNumber, Decimal;
    NumberReads(0, n, rest);
    assert Spaces(0) + (Decimal(n) + rest) == Decimal(n) + rest;
  }

  lemma PrefixParts(o: Settings, tid: nat, depth: nat, isCall: bool, stamp: string)
    ensures isCall && o.indent > 0 ==> o.indent * depth >= 0
    ensures LinePrefix(o, tid, depth, isCall, stamp) ==
      var rest := stamp + Spaces(if isCall && o.indent > 0 then o.indent * depth else 0);
      match o.tag
      case NoTag => rest
      case PidTag => Decimal(tid) + (" " + rest)
      case TidTag => "[tid " + (Decimal(tid) + ("] " + rest))
  {
    assert Spaces(0) == "";
    hide Decimal, Spaces;
    assert isCall && o.indent > 0 ==> o.indent * depth >= 0;
    var indent := if isCall && o.indent > 0 then Spaces(o.indent * depth) else "";
    match o.tag
    case NoTag => assert "" + stamp + indent == stamp + indent;
    case PidTag => assert Decimal(tid) + " " + stamp + indent == Decimal(tid) + (" " + (stamp + indent));
    case TidTag =>
      assert "[tid " + Decimal(tid) + "] " + stamp + indent == "[tid " + (Decimal(tid) + ("] " + (stamp + indent)));
  }

  /** A message is a line of its own, with its text behind the prefix. */
  lemma {:induction false} MessageReads(o: Settings, pen: Pen, prefix: string, text: string) returns (start: string)
    requires LineOk(pen) && !o.countOnly && Plain(prefix) && Plain(text)
    ensures LinePen(o, pen, prefix, Some(text)).out == start + (prefix + text) + "\n"
    ensures Tail(start) == "" && pen.out <= start && (pen.pid == 0 ==> start == pen.out)
  {
    hide Tail;
    BrokenEndsLine(pen);
    NothingBroken(pen);
    start := Broken(pen);
    assert start + prefix + text + "\n" == start + (prefix + text) + "\n";
  }
}
