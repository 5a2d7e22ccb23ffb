/** Reading function signatures from a configuration file (read_config_file.c). */
module ConfigParser {
  import opened Base

  const MAX_ARGS := 32

  datatype ArgType =
    | Unknown | Void | Int | UInt | Octal | Char | AddrType | File | Format | String
    | String0 | String1 | String2 | String3

  datatype Function = Function(name: string, returnType: ArgType, argTypes: seq<ArgType>, paramsRight: nat)

  /** The names of the argument types, in the order they are tried. */
  type Table = seq<(string, ArgType)>

  const TYPE_TABLE: Table := [
    ("void", Void), ("int", Int), ("uint", UInt), ("octal", Octal), ("char", Char), ("addr", AddrType),
    ("file", File), ("format", Format), ("string", String), ("string0", String0), ("string1", String1),
    ("string2", String2), ("string3", String3)]

  // --- the parser on strings ---

  function Strip(s: string): (r: string)
    ensures |r| <= |s| && (|r| == |s| ==> r == s)
  {
    if s != "" && s[0] == ' ' then Strip(s[1..]) else s
  }

  predicate Terminator(c: char) {
    c == ' ' || c == ',' || c == ')' || c == '#'
  }

  /** `name` starts `s` and what follows it is a terminator or the end: index() also finds the final NUL. */
  predicate NameAt(s: string, name: string) {
    name <= s && (|s| == |name| || Terminator(s[|name|]))
  }

  /** The first entry of the table, from `i` on, that names the type `s` starts with, or the table's length. */
  function FindType(table: Table, s: string, i: nat): (j: nat)
    requires i <= |table|
    ensures i <= j <= |table|
    ensures j < |table| ==> NameAt(s, table[j].0)
    ensures forall k :: i <= k < j ==> !NameAt(s, table[k].0)
    decreases |table| - i
  {
    if i == |table| || NameAt(s, table[i].0) then i else FindType(table, s, i + 1)
  }

  function ParseType(table: Table, s: string): (r: (ArgType, string))
    ensures |r.1| <= |s| && (|r.1| == |s| ==> r.1 == s)
  {
    var j := FindType(table, s, 0);
    if j < |table| then (table[j].1, s[|table[j].0|..]) else (Unknown, s)
  }

  /** The backwards scan of `s[..pos]` with `stacked` parentheses already open to the right. */
  function ScanBack(s: string, pos: nat, stacked: nat): (r: Option<nat>)
    requires pos <= |s|
    ensures r.Some? ==> r.value < pos && s[r.value] == '('
    decreases pos
  {
    if pos == 0 then None
    else if s[pos - 1] == ')' then ScanBack(s, pos - 1, stacked + 1)
    else if s[pos - 1] != '(' then ScanBack(s, pos - 1, stacked)
    else if stacked > 1 then ScanBack(s, pos - 1, stacked - 1)
    else if stacked == 1 then Some(pos - 1)
    else None
  }

  /** One round of the argument loop: the list ends, the line is malformed, or one more argument is read. */
  datatype ArgRound = Ends | Malformed | Reads(argType: ArgType, right: nat, rest: string)

  function NextRight(plus: bool, right: nat): nat {
    if plus || right > 0 then right + 1 else right
  }

  /** The type of an argument and what ends it. */
  function ParseTyped(table: Table, s: string, right: nat): (r: ArgRound)
    ensures r.Reads? ==> |r.rest| <= |s| && (|r.rest| == |s| ==> s != "" && s[0] == ')')
  {
    var (pt, afterType) := ParseType(table, s);
    var u := Strip(afterType);
    if u == "" || (u[0] != ',' && u[0] != ')') then Malformed
    else Reads(pt, right, if u[0] == ',' then u[1..] else u)
  }

  function ParseArg(table: Table, s: string, right: nat): (r: ArgRound)
    ensures r.Reads? ==> |r.rest| < |s|
  {
    var t := Strip(s);
    if t != "" && t[0] == ')' then Ends
    else if t != "" && t[0] == '+' then ParseTyped(table, t[1..], NextRight(true, right))
    else ParseTyped(table, t, NextRight(false, right))
  }

  function ParseArgs(table: Table, s: string, types: seq<ArgType>, right: nat): Option<(seq<ArgType>, nat)>
    requires |types| <= MAX_ARGS
    decreases |s|
  {
    if |types| == MAX_ARGS then Some((types, right))
    else
      match ParseArg(table, s, right)
      case Ends => Some((types, right))
      case Malformed => None
      case Reads(pt, right', rest) => ParseArgs(table, rest, types + [pt], right')
  }

  /** The name and argument list that follow the return type. */
  function ParseSignature(table: Table, returnType: ArgType, s: string): Option<Function> {
    match ScanBack(s, |s|, 0)
    case None => None
    case Some(p) =>
      match ParseArgs(table, s[p + 1..], [], 0)
      case None => None
      case Some((types, right)) => Some(Function(s[..p], returnType, types, right))
  }

  function ParseLine(table: Table, line: string): Option<Function> {
    var (returnType, afterType) := ParseType(table, Strip(line));
    if returnType == Unknown then None else ParseSignature(table, returnType, Strip(afterType))
  }

  // --- the parenthesis that opens the argument list ---

  /** Closing minus opening parentheses from position `p` on. */
  function Net(s: string, p: nat): int
    requires p <= |s|
    decreases |s| - p
  {
    if p == |s| then 0
    else Net(s, p + 1) + if s[p] == ')' then 1 else if s[p] == '(' then -1 else 0
  }

  /** `p` is the '(' matching the last ')' of `s`: everything to its right closes more than it opens. */
  ghost predicate OpensLast(s: string, p: nat) {
    && p < |s| && s[p] == '(' && Net(s, p) == 0
    && forall q :: p < q < |s| && s[q] == '(' ==> Net(s, q) > 0
  }

  lemma {:induction false} ScanBackExact(s: string, pos: nat)
    requires pos <= |s| && Net(s, pos) >= 0
    requires forall q :: pos <= q < |s| && s[q] == '(' ==> Net(s, q) > 0
    ensures match ScanBack(s, pos, Net(s, pos))
      case Some(p) => OpensLast(s, p)
      case None => forall p: nat :: p < pos ==> !OpensLast(s, p)
    decreases pos
  {
    if pos > 0 {
      if s[pos - 1] != '(' || Net(s, pos) > 1 {
        ScanBackExact(s, pos - 1);
      }
      if s[pos - 1] == '(' && Net(s, pos) == 0 {
        assert Net(s, pos - 1) == -1;
      }
    }
  }

  /** The scan finds the parenthesis matching the last closing one, exactly when there is one. */
  lemma ArgumentListFound(s: string)
    ensures match ScanBack(s, |s|, 0)
      case Some(p) => OpensLast(s, p)
      case None => forall p: nat :: p < |s| ==> !OpensLast(s, p)
  {
    ScanBackExact(s, |s|);
  }

  // --- printing a signature ---

  /** An argument whose type is entry number `typeIndex` of the table. */
  datatype Argument = Argument(before: nat, plus: bool, typeIndex: nat, after: nat)

  datatype Layout = Layout(indent: nat, gap: nat, inner: nat, trailing: string)

  predicate NoParens(s: string) {
    forall i :: 0 <= i < |s| ==> s[i] != '(' && s[i] != ')'
  }

  predicate GoodName(name: string) {
    && name != "" && name[0] != '+'
    && forall k :: 0 <= k < |name| ==> !Terminator(name[k]) && name[k] != '(' && name[k] != ')'
  }

  /** Distinct names without terminators or parentheses, for known types. */
  ghost predicate GoodTable(table: Table) {
    && (forall i :: 0 <= i < |table| ==> GoodName(table[i].0) && table[i].1 != Unknown)
    && (forall i, j :: 0 <= i < |table| && 0 <= j < |table| && table[i].0 == table[j].0 ==> i == j)
  }

  lemma TypeTableGood()
    ensures GoodTable(TYPE_TABLE)
  {
    TypeNamesGood();
    TypeNamesDiffer();
  }

  lemma TypeNamesGood()
    ensures forall i :: 0 <= i < |TYPE_TABLE| ==> GoodName(TYPE_TABLE[i].0) && TYPE_TABLE[i].1 != Unknown
  {
    assert forall i :: 0 <= i < |TYPE_TABLE| ==> |TYPE_TABLE[i].0| <= 7;
  }

  lemma TypeNamesDiffer()
    ensures forall i, j :: 0 <= i < |TYPE_TABLE| && 0 <= j < |TYPE_TABLE| && TYPE_TABLE[i].0 == TYPE_TABLE[j].0 ==>
      i == j
  {
  }

  ghost predicate InTable(table: Table, args: seq<Argument>) {
    forall i :: 0 <= i < |args| ==> args[i].typeIndex < |table|
  }

  function PrintArg(table: Table, arg: Argument): string
    requires arg.typeIndex < |table|
  {
    Spaces(arg.before) + ((if arg.plus then "+" else "") + (table[arg.typeIndex].0 + Spaces(arg.after)))
  }

  /** The argument list and everything after it. */
  function PrintArgs(table: Table, args: seq<Argument>, layout: Layout): string
    requires InTable(table, args)
  {
    if args == [] then Spaces(layout.inner) + (")" + layout.trailing)
    else if |args| == 1 then PrintArg(table, args[0]) + (")" + layout.trailing)
    else PrintArg(table, args[0]) + ("," + PrintArgs(table, args[1..], layout))
  }

  function PrintLine(table: Table, returnIndex: nat, name: string, args: seq<Argument>, layout: Layout): string
    requires returnIndex < |table| && InTable(table, args)
  {
    Spaces(layout.indent) +
    (table[returnIndex].0 + (Spaces(layout.gap) + (name + "(" + PrintArgs(table, args, layout))))
  }

  function Types(table: Table, args: seq<Argument>): (types: seq<ArgType>)
    requires InTable(table, args)
    ensures |types| == |args|
  {
    seq(|args|, i requires 0 <= i < |args| => table[args[i].typeIndex].1)
  }

  /** The index of the first argument marked '+', or the number of arguments. */
  function FirstPlus(args: seq<Argument>): (k: nat)
    ensures k <= |args|
    ensures k < |args| ==> args[k].plus
    ensures forall i :: 0 <= i < k ==> !args[i].plus
  {
    if args == [] || args[0].plus then 0 else 1 + FirstPlus(args[1..])
  }

  // --- parsing what was printed ---

  /** Two names without terminators that both stand at the start of `s` are the same. */
  lemma {:induction false} OneNameAt(s: string, a: string, b: string)
    requires NameAt(s, a) && NameAt(s, b)
    requires forall k :: 0 <= k < |a| ==> !Terminator(a[k])
    requires forall k :: 0 <= k < |b| ==> !Terminator(b[k])
    ensures a == b
  {
    forall k | 0 <= k < |a| && k < |b| ensures a[k] == s[k] == b[k] {
    }
    assert a == s[..|a|] && b == s[..|b|];
  }

  lemma ParseTypeName(table: Table, i: nat, rest: string)
    requires GoodTable(table) && i < |table| && (rest == "" || Terminator(rest[0]))
    ensures ParseType(table, table[i].0 + rest) == (table[i].1, rest)
  {
    var s := table[i].0 + rest;
    assert NameAt(s, table[i].0);
    var j := FindType(table, s, 0);
    if j < |table| {
      OneNameAt(s, table[i].0, table[j].0);
    }
  }

  lemma {:induction false} StripSpaces(n: nat, s: string)
    requires s == "" || s[0] != ' '
    ensures Strip(Spaces(n) + s) == s
  {
    if n > 0 {
      assert (Spaces(n) + s)[1..] == Spaces(n - 1) + s;
      StripSpaces(n - 1, s);
    } else {
      assert Spaces(n) + s == s;
    }
  }

  /** What follows an argument: a comma and more, or the end of the list. */
  predicate EndsArg(rest: string) {
    rest != "" && (rest[0] == ',' || rest[0] == ')')
  }

  lemma ParsePrintedArg(table: Table, arg: Argument, rest: string, right: nat)
    requires GoodTable(table) && arg.typeIndex < |table| && EndsArg(rest)
    ensures ParseArg(table, PrintArg(table, arg) + rest, right) ==
      Reads(table[arg.typeIndex].1, NextRight(arg.plus, right), if rest[0] == ',' then rest[1..] else rest)
  {
    var tail := Spaces(arg.after) + rest;
    var typed := table[arg.typeIndex].0 + tail;
    var signed := (if arg.plus then "+" else "") + typed;
    assert PrintArg(table, arg) + rest == Spaces(arg.before) + signed;
    assert GoodName(table[arg.typeIndex].0) && typed[0] == table[arg.typeIndex].0[0];
    assert arg.plus ==> signed[0] == '+' && signed[1..] == typed;
    assert !arg.plus ==> signed == typed;
    StripSpaces(arg.before, signed);
    ParseTypeName(table, arg.typeIndex, tail);
    StripSpaces(arg.after, rest);
  }

  /** params_right after the arguments `args`, when it was `right` before them. */
  function RightAfter(args: seq<Argument>, right: nat): nat {
    if args == [] then right else RightAfter(args[1..], NextRight(args[0].plus, right))
  }

  lemma {:induction false} RightFromPlus(args: seq<Argument>, right: nat)
    ensures RightAfter(args, right) == if right > 0 then right + |args| else |args| - FirstPlus(args)
  {
    if args != [] {
      RightFromPlus(args[1..], NextRight(args[0].plus, right));
    }
  }

  lemma ParseNoArg(table: Table, s: string, right: nat)
    requires Strip(s) != "" && Strip(s)[0] == ')'
    ensures ParseArg(table, s, right) == Ends
  {
  }

  lemma {:induction false} ParsePrintedArgs(table: Table, args: seq<Argument>, layout: Layout,
                                            types: seq<ArgType>, right: nat)
    requires GoodTable(table) && InTable(table, args) && |types| + |args| <= MAX_ARGS
    ensures ParseArgs(table, PrintArgs(table, args, layout), types, right) ==
      Some((types + Types(table, args), RightAfter(args, right)))
    decreases |args|
  {
    if args == [] {
      StripSpaces(layout.inner, ")" + layout.trailing);
      ParseNoArg(table, PrintArgs(table, args, layout), right);
      assert types + Types(table, args) == types;
    } else {
      var t := table[args[0].typeIndex].1;
      var right' := NextRight(args[0].plus, right);
      assert types + [t] + Types(table, args[1..]) == types + Types(table, args);
      if |args| > 1 {
        var rest := PrintArgs(table, args[1..], layout);
        ParsePrintedArg(table, args[0], "," + rest, right);
        assert ("," + rest)[1..] == rest;
        ParsePrintedArgs(table, args[1..], layout, types + [t], right');
      } else {
        ParsePrintedArg(table, args[0], ")" + layout.trailing, right);
        EndOfList(table, layout.trailing, types + [t], right');
        assert types + [t] == types + Types(table, args);
        assert RightAfter(args, right) == right';
      }
    }
  }

  /** A ')' ends the list, whether or not there is room for more arguments. */
  lemma EndOfList(table: Table, trailing: string, types: seq<ArgType>, right: nat)
    requires |types| <= MAX_ARGS
    ensures ParseArgs(table, ")" + trailing, types, right) == Some((types, right))
  {
  }

  // --- finding the printed list ---

  predicate Paren(c: char) {
    c == '(' || c == ')'
  }

  lemma {:induction false} ScanQuiet(s: string, p: nat, pos: nat, stacked: nat)
    requires p <= pos <= |s| && forall i :: p <= i < pos ==> !Paren(s[i])
    ensures ScanBack(s, pos, stacked) == ScanBack(s, p, stacked)
    decreases pos
  {
    if p < pos {
      ScanQuiet(s, p, pos - 1, stacked);
    }
  }

  /** Where the ')' that ends the printed list stands: no other parenthesis comes with it. */
  lemma {:induction false} ListClose(table: Table, args: seq<Argument>, layout: Layout) returns (close: nat)
    requires GoodTable(table) && InTable(table, args) && NoParens(layout.trailing)
    ensures var list := PrintArgs(table, args, layout);
      close < |list| && list[close] == ')' && forall i :: 0 <= i < |list| && i != close ==> !Paren(list[i])
    decreases |args|
  {
    if args == [] {
      close := layout.inner;
    } else {
      assert GoodName(table[args[0].typeIndex].0);
      var arg := PrintArg(table, args[0]);
      assert forall i :: 0 <= i < |arg| ==> !Paren(arg[i]);
      if |args| == 1 {
        close := |arg|;
      } else {
        close := ListClose(table, args[1..], layout);
        close := close + |arg| + 1;
      }
    }
  }

  lemma ScanTo(s: string, p: nat, close: nat)
    requires p < close < |s| && s[p] == '(' && s[close] == ')'
    requires forall i :: p < i < |s| && i != close ==> !Paren(s[i])
    ensures ScanBack(s, |s|, 0) == Some(p)
  {
    ScanQuiet(s, close + 1, |s|, 0);
    ScanQuiet(s, p + 1, close, 1);
  }

  /** Whatever parentheses the name holds, the list found is the printed one. */
  lemma ListFound(table: Table, name: string, args: seq<Argument>, layout: Layout)
    requires GoodTable(table) && InTable(table, args) && NoParens(layout.trailing)
    ensures var s := name + "(" + PrintArgs(table, args, layout); ScanBack(s, |s|, 0) == Some(|name|)
  {
    var list := PrintArgs(table, args, layout);
    var s := name + "(" + list;
    var close := ListClose(table, args, layout);
    var start := |name| + 1;
    forall i | start <= i < |s| && i != start + close ensures !Paren(s[i]) {
      assert s[i] == list[i - start];
    }
    assert s[start + close] == list[close];
    ScanTo(s, |name|, start + close);
  }

  lemma {:induction false} SignatureParsed(table: Table, returnType: ArgType, name: string,
                                           args: seq<Argument>, layout: Layout)
    requires GoodTable(table) && InTable(table, args) && |args| <= MAX_ARGS && NoParens(layout.trailing)
    ensures ParseSignature(table, returnType, name + "(" + PrintArgs(table, args, layout)) ==
      Some(Function(name, returnType, Types(table, args), |args| - FirstPlus(args)))
  {
    var list := PrintArgs(table, args, layout);
    ListFound(table, name, args, layout);
    assert (name + "(" + list)[|name| + 1..] == list && (name + "(" + list)[..|name|] == name;
    ParsePrintedArgs(table, args, layout, [], 0);
    RightFromPlus(args, 0);
    assert [] + Types(table, args) == Types(table, args);
  }

  /** Parsing inverts printing, for every return type, name, argument list that fits, '+' marks and spacing. */
  lemma {:induction false} ParsePrinted(table: Table, returnIndex: nat, name: string,
                                        args: seq<Argument>, layout: Layout)
    requires GoodTable(table) && returnIndex < |table| && InTable(table, args) && |args| <= MAX_ARGS
    requires layout.gap > 0 && NoParens(layout.trailing) && (name == "" || name[0] != ' ')
    ensures ParseLine(table, PrintLine(table, returnIndex, name, args, layout)) ==
      Some(Function(name, table[returnIndex].1, Types(table, args), |args| - FirstPlus(args)))
  {
    var s := name + "(" + PrintArgs(table, args, layout);
    assert s[0] == if name == "" then '(' else name[0];
    LineParsed(table, returnIndex, s, layout);
    SignatureParsed(table, table[returnIndex].1, name, args, layout);
  }

  lemma LineParsed(table: Table, returnIndex: nat, s: string, layout: Layout)
    requires GoodTable(table) && returnIndex < |table| && layout.gap > 0 && s != "" && s[0] != ' '
    ensures ParseLine(table, Spaces(layout.indent) + (table[returnIndex].0 + (Spaces(layout.gap) + s))) ==
      ParseSignature(table, table[returnIndex].1, s)
  {
    var tail := Spaces(layout.gap) + s;
    assert GoodName(table[returnIndex].0);
    StripSpaces(layout.indent, table[returnIndex].0 + tail);
    ParseTypeName(table, returnIndex, tail);
    StripSpaces(layout.gap, s);
  }

  /** The same for the table the tracer uses. */
  lemma {:induction false} SignatureRoundTrip(returnIndex: nat, name: string, args: seq<Argument>, layout: Layout)
    requires returnIndex < |TYPE_TABLE| && InTable(TYPE_TABLE, args) && |args| <= 32
    requires layout.gap > 0 && NoParens(layout.trailing) && (name == "" || name[0] != ' ')
    ensures ParseLine(TYPE_TABLE, PrintLine(TYPE_TABLE, returnIndex, name, args, layout)) ==
      Some(Function(name, TYPE_TABLE[returnIndex].1, Types(TYPE_TABLE, args), |args| - FirstPlus(args)))
  {
    TypeTableGood();
    ParsePrinted(TYPE_TABLE, returnIndex, name, args, layout);
  }

  /** How a configuration file names a type. */
  function TypeName(t: ArgType): string {
    match t
    case Unknown => ""
    case Void => "void"
    case Int => "int"
    case UInt => "uint"
    case Octal => "octal"
    case Char => "char"
    case AddrType => "addr"
    case File => "file"
    case Format => "format"
    case String => "string"
    case String0 => "string0"
    case String1 => "string1"
    case String2 => "string2"
    case String3 => "string3"
  }

  /** The table has each known type once, under its name. */
  lemma {:induction false} TableNames(t: ArgType) returns (i: nat)
    requires t != Unknown
    ensures i < |TYPE_TABLE| == 13 && TYPE_TABLE[i] == (TypeName(t), t)
    ensures forall k :: 0 <= k < |TYPE_TABLE| && TYPE_TABLE[k].1 == t ==> k == i
  {
    i := match t
      case Void => 0 case Int => 1 case UInt => 2 case Octal => 3 case Char => 4 case AddrType => 5 case File => 6
      case Format => 7 case String => 8 case String0 => 9 case String1 => 10 case String2 => 11 case String3 => 12;
  }

  /** So a type's name, ended by a terminator or by the line, reads as that type. */
  lemma {:induction false} TypeReads(t: ArgType, rest: string)
    requires t != Unknown && (rest == "" || Terminator(rest[0]))
    ensures ParseType(TYPE_TABLE, TypeName(t) + rest) == (t, rest)
  {
    hide TypeName;
    var i := TableNames(t);
    TypeTableGood();
    ParseTypeName(TYPE_TABLE, i, rest);
  }

  /** Exactly a space, a comma, a closing parenthesis and a '#' end a type's name inside a line. */
  lemma {:induction false} TypeEnds(t: ArgType, c: char, rest: string)
    requires t != Unknown
    ensures ParseType(TYPE_TABLE, TypeName(t) + [c] + rest) == (t, [c] + rest) <==> c in " ,)#"
  {
    hide TypeName;
    var i := TableNames(t);
    var s := TypeName(t) + [c] + rest;
    assert s == TypeName(t) + ([c] + rest);
    if Terminator(c) {
      TypeReads(t, [c] + rest);
    }
  }

  /** No more arguments are shown on the right than there are, and at most 32 are read. */
  lemma {:induction false} RightAtMostAll(table: Table, s: string, types: seq<ArgType>, right: nat)
    requires |types| <= MAX_ARGS && right <= |types|
    ensures match ParseArgs(table, s, types, right)
      case Some((types', right')) => right' <= |types'| <= MAX_ARGS
      case None => true
    decreases |s|
  {
    if |types| < MAX_ARGS && ParseArg(table, s, right).Reads? {
      var r := ParseArg(table, s, right);
      RightAtMostAll(table, r.rest, types + [r.argType], r.right);
    }
  }

  lemma ParsedFits(table: Table, line: string)
    ensures var f := ParseLine(table, line);
      f.Some? ==> f.value.paramsRight <= |f.value.argTypes| <= 32
  {
    var s := Strip(ParseType(table, Strip(line)).1);
    if ScanBack(s, |s|, 0).Some? {
      RightAtMostAll(table, s[ScanBack(s, |s|, 0).value + 1..], [], 0);
    }
  }
}
