/** What the signature parser accepts besides well-formed lines: empty arguments, and names cut short by the line's
    end (read_config_file.c). */
module ConfigFields {
  import opened Base
  import opened ConfigParser

  // --- the texts between the commas ---

  predicate EndsField(c: char) {
    c == ',' || c == ')'
  }

  /** Where the first comma or closing parenthesis is, or the end. */
  function FieldEnd(s: string): (k: nat)
    ensures k <= |s| && (k < |s| ==> EndsField(s[k]))
  {
    if s == "" || EndsField(s[0]) then 0 else 1 + FieldEnd(s[1..])
  }

  /** The texts of an argument list, up to the first closing parenthesis. */
  function Fields(s: string): (fields: seq<string>)
    ensures fields != []
    decreases |s|
  {
    var k := FieldEnd(s);
    if k < |s| && s[k] == ',' then [s[..k]] + Fields(s[k + 1..]) else [s[..k]]
  }

  /** Nothing but spaces, and perhaps one '+' among them. */
  predicate Blank(field: string) {
    var t := Strip(field);
    (if t != "" && t[0] == '+' then Strip(t[1..]) else t) == ""
  }

  predicate Inside(s: string) {
    forall i :: 0 <= i < |s| ==> !EndsField(s[i])
  }

  lemma Associate(a: string, b: string, c: string)
    ensures a + (b + c) == a + b + c
  {
  }

  lemma {:induction false} FieldEndsAt(a: string, rest: string)
    requires Inside(a) && EndsArg(rest)
    ensures FieldEnd(a + rest) == |a|
    decreases |a|
  {
    if a == "" {
      assert a + rest == rest;
    } else {
      assert (a + rest)[1..] == a[1..] + rest;
      FieldEndsAt(a[1..], rest);
    }
  }

  lemma {:induction false} StripLeaves(s: string)
    ensures s == Spaces(|s| - |Strip(s)|) + Strip(s)
    ensures Strip(s) != "" ==> Strip(s)[0] != ' '
    decreases |s|
  {
    if s != "" && s[0] == ' ' {
      StripLeaves(s[1..]);
      var n := |s[1..]| - |Strip(s[1..])|;
      assert s == " " + s[1..] && Spaces(n + 1) == " " + Spaces(n);
      Associate(" ", Spaces(n), Strip(s));
    }
  }

  lemma SpacesInside(n: nat)
    ensures Inside(Spaces(n))
  {
  }

  lemma StripAll(n: nat)
    ensures Strip(Spaces(n)) == ""
  {
    StripSpaces(n, "");
    assert Spaces(n) + "" == Spaces(n);
  }

  /** A type text up to what ends it: a name and spaces, or only spaces when there is no name. */
  lemma {:induction false} TypedField(table: Table, s: string, right: nat) returns (field: string, rest: string)
    requires GoodTable(table) && ParseTyped(table, s, right).Reads?
    ensures s == field + rest && Inside(field) && EndsArg(rest)
    ensures ParseTyped(table, s, right).rest == if rest[0] == ',' then rest[1..] else rest
    ensures if ParseTyped(table, s, right).argType == Unknown then field == Spaces(|field|)
      else field != "" && field[0] != ' ' && field[0] != '+'
  {
    var j := FindType(table, s, 0);
    var after := ParseType(table, s).1;
    rest := Strip(after);
    StripLeaves(after);
    SpacesInside(|after| - |rest|);
    if j < |table| {
      var name := table[j].0;
      assert GoodName(name);
      field := name + Spaces(|after| - |rest|);
      assert s == name + after;
      Associate(name, Spaces(|after| - |rest|), rest);
      assert name[0] != ' ' by {
        assert !Terminator(name[0]);
      }
    } else {
      field := Spaces(|after| - |rest|);
    }
  }

  lemma BlankSpaces(n: nat, m: nat)
    ensures Blank(Spaces(n) + Spaces(m)) && Blank(Spaces(n) + ("+" + Spaces(m)))
  {
    StripAll(m);
    StripSpaces(n, "+" + Spaces(m));
    assert ("+" + Spaces(m))[1..] == Spaces(m);
    SpacesJoin(n, m);
    StripAll(n + m);
  }

  lemma {:induction false} SpacesJoin(n: nat, m: nat)
    ensures Spaces(n) + Spaces(m) == Spaces(n + m)
    decreases n
  {
    if n > 0 {
      SpacesJoin(n - 1, m);
    } else {
      assert Spaces(0) + Spaces(m) == Spaces(m);
    }
  }

  lemma NotBlank(n: nat, text: string)
    requires text != "" && text[0] != ' ' && text[0] != '+'
    ensures !Blank(Spaces(n) + text) && !Blank(Spaces(n) + ("+" + text))
  {
    StripSpaces(n, text);
    StripSpaces(n, "+" + text);
    assert ("+" + text)[1..] == text;
  }

  lemma SignedField(n: nat, plus: bool, field: string, unknown: bool)
    requires Inside(field)
    requires if unknown then field == Spaces(|field|) else field != "" && field[0] != ' ' && field[0] != '+'
    ensures var all := Spaces(n) + ((if plus then "+" else "") + field);
      Inside(all) && (unknown <==> Blank(all))
  {
    hide Blank;
    SpacesInside(n);
    assert "" + field == field;
    if unknown {
      BlankSpaces(n, |field|);
    } else {
      NotBlank(n, field);
    }
  }

  /** The text an argument was read from and what ended it. */
  lemma {:induction false} ReadField(table: Table, s: string, right: nat) returns (all: string, rest: string)
    requires GoodTable(table) && ParseArg(table, s, right).Reads?
    ensures s == all + rest && Inside(all) && EndsArg(rest)
    ensures ParseArg(table, s, right).rest == if rest[0] == ',' then rest[1..] else rest
    ensures ParseArg(table, s, right).argType == Unknown <==> Blank(all)
  {
    hide ParseTyped, Blank, Strip, GoodTable, Inside;
    var t := Strip(s);
    StripLeaves(s);
    var plus := t != "" && t[0] == '+';
    var typed := if plus then t[1..] else t;
    var field: string;
    field, rest := TypedField(table, typed, NextRight(plus, right));
    SignedField(|s| - |t|, plus, field, ParseArg(table, s, right).argType == Unknown);
    all := Spaces(|s| - |t|) + ((if plus then "+" else "") + field);
    Reassembled(s, |s| - |t|, t, plus, field, rest);
  }

  lemma Reassembled(s: string, n: nat, t: string, plus: bool, field: string, rest: string)
    requires s == Spaces(n) + t && (plus <==> t != "" && t[0] == '+')
    requires (if plus then t[1..] else t) == field + rest
    ensures s == Spaces(n) + ((if plus then "+" else "") + field) + rest
  {
    hide Spaces;
    var sign := if plus then "+" else "";
    assert t == sign + if plus then t[1..] else t;
    Associate(sign, field, rest);
    Associate(Spaces(n), sign + field, rest);
  }

  /** An argument read is a field, and its type is unknown exactly when the field is blank. */
  lemma {:induction false} ArgField(table: Table, s: string, right: nat)
    requires GoodTable(table) && ParseArg(table, s, right).Reads?
    ensures var k, r := FieldEnd(s), ParseArg(table, s, right);
      && k < |s| && r.rest == (if s[k] == ',' then s[k + 1..] else s[k..])
      && (r.argType == Unknown <==> Blank(s[..k]))
  {
    hide ParseArg, Blank;
    var all, rest := ReadField(table, s, right);
    FieldEndsAt(all, rest);
    assert s[..|all|] == all && s[|all|..] == rest && s[|all| + 1..] == rest[1..];
  }

  /** In an accepted list, the arguments of unknown type are exactly the blank ones. */
  lemma {:induction false} ListFields(table: Table, s: string, types: seq<ArgType>, right: nat)
    requires GoodTable(table) && |types| <= MAX_ARGS && ParseArgs(table, s, types, right).Some?
    ensures var all := ParseArgs(table, s, types, right).value.0;
      && types <= all && |all| - |types| <= |Fields(s)|
      && forall i :: |types| <= i < |all| ==> (all[i] == Unknown <==> Blank(Fields(s)[i - |types|]))
    decreases |s|
  {
    hide ParseArg, Blank, FieldEnd, Fields;
    if |types| < MAX_ARGS && ParseArg(table, s, right).Reads? {
      var r := ParseArg(table, s, right);
      ArgField(table, s, right);
      ListFields(table, r.rest, types + [r.argType], r.right);
      FieldsNext(s);
      var k, all := FieldEnd(s), ParseArgs(table, s, types, right).value.0;
      if s[k] == ',' {
        FieldInFront(all, types, r.argType, s[..k], Fields(r.rest));
      } else {
        ClosedList(table, r.rest, types + [r.argType], r.right);
        FieldInFront(all, types, r.argType, s[..k], []);
        assert [s[..k]] + [] == [s[..k]];
      }
    }
  }

  lemma FieldInFront(all: seq<ArgType>, types: seq<ArgType>, t: ArgType, field: string, fields: seq<string>)
    requires types + [t] <= all && (t == Unknown <==> Blank(field)) && |all| - |types| - 1 <= |fields|
    requires forall i :: |types| < i < |all| ==> (all[i] == Unknown <==> Blank(fields[i - |types| - 1]))
    ensures types <= all && |all| - |types| <= |fields| + 1
    ensures forall i :: |types| <= i < |all| ==> (all[i] == Unknown <==> Blank(([field] + fields)[i - |types|]))
  {
    hide Blank;
    assert all[|types|] == (types + [t])[|types|] == t;
    assert types == (types + [t])[..|types|] == all[..|types|];
    forall i | |types| <= i < |all| ensures all[i] == Unknown <==> Blank(([field] + fields)[i - |types|]) {
      if i > |types| {
        assert ([field] + fields)[i - |types|] == fields[i - |types| - 1];
      }
    }
  }

  lemma {:induction false} FieldsNext(s: string)
    requires FieldEnd(s) < |s|
    ensures var k := FieldEnd(s);
      Fields(s) == if s[k] == ',' then [s[..k]] + Fields(s[k + 1..]) else [s[..k]]
  {
    hide FieldEnd;
  }

  lemma ClosedList(table: Table, s: string, types: seq<ArgType>, right: nat)
    requires s != "" && s[0] == ')' && |types| <= MAX_ARGS
    ensures ParseArgs(table, s, types, right) == Some((types, right))
  {
  }

  /** The text of the argument list of a line that has one. */
  function ListText(table: Table, line: string): string {
    var s := Strip(ParseType(table, Strip(line)).1);
    match ScanBack(s, |s|, 0)
    case None => ""
    case Some(p) => s[p + 1..]
  }

  lemma AcceptedList(table: Table, line: string)
    requires ParseLine(table, line).Some?
    ensures ParseArgs(table, ListText(table, line), [], 0).Some?
    ensures ParseArgs(table, ListText(table, line), [], 0).value.0 == ParseLine(table, line).value.argTypes
  {
    hide ParseArgs;
  }

  /** An accepted line has an argument of unknown type exactly where its list has a blank field: the check that should
      reject it looks at the return type. */
  lemma UnknownIsBlank(table: Table, line: string)
    requires GoodTable(table) && ParseLine(table, line).Some?
    ensures var types, fields := ParseLine(table, line).value.argTypes, Fields(ListText(table, line));
      |types| <= |fields| && forall i :: 0 <= i < |types| ==> (types[i] == Unknown <==> Blank(fields[i]))
  {
    hide Blank, Fields, ParseLine, ListText, ParseArgs;
    AcceptedList(table, line);
    ListFields(table, ListText(table, line), [], 0);
  }

  /** A name that the end of the line cuts off is accepted by str2type, but never in an accepted line: as an argument it
      is malformed, and behind a return type there is no argument list. */
  lemma LineEndRejected(table: Table, s: string, right: nat, line: string)
    ensures ParseType(table, s).1 == "" ==> ParseTyped(table, s, right) == Malformed
    ensures ParseType(table, Strip(line)).1 == "" ==> ParseLine(table, line) == None
  {
  }

  // --- one such line ---

  /** "int f(,int)" for any type of any good table. */
  lemma EmptyArgument(table: Table, i: nat)
    requires GoodTable(table) && i < |table|
    ensures ParseLine(table, table[i].0 + (" f(," + (table[i].0 + ")"))) ==
      Some(Function("f", table[i].1, [Unknown, table[i].1], 0))
  {
    hide ParseType, ParseArgs, ScanBack;
    var last := table[i].0 + ")";
    var line := table[i].0 + (" f(," + last);
    assert GoodName(table[i].0);
    ParseTypeName(table, i, " f(," + last);
    assert Strip(line) == line;
    var s := "f(," + last;
    assert (" f(," + last)[1..] == s && Strip(" f(," + last) == s;
    ListOpensAt(s);
    assert s[..1] == "f" && s[2..] == "," + last;
    EmptyThenType(table, i);
  }

  lemma ListOpensAt(s: string)
    requires |s| > 2 && s[1] == '(' && s[|s| - 1] == ')' && forall i :: 1 < i < |s| - 1 ==> !Paren(s[i])
    ensures ScanBack(s, |s|, 0) == Some(1)
  {
    ScanTo(s, 1, |s| - 1);
  }

  lemma {:induction false} EmptyThenType(table: Table, i: nat)
    requires GoodTable(table) && i < |table|
    ensures ParseArgs(table, "," + (table[i].0 + ")"), [], 0) == Some(([Unknown, table[i].1], 0))
  {
    hide ParseArg;
    var last := table[i].0 + ")";
    assert ParseArg(table, "," + last, 0) == Reads(Unknown, 0, last) by {
      NoArgAt(table, last);
    }
    assert ParseArg(table, last, 0) == Reads(table[i].1, 0, ")") by {
      OneArgAt(table, i);
    }
    ClosedList(table, ")", [Unknown, table[i].1], 0);
    assert [] + [Unknown] + [table[i].1] == [Unknown, table[i].1];
  }

  lemma NoArgAt(table: Table, rest: string)
    requires GoodTable(table)
    ensures ParseArg(table, "," + rest, 0) == Reads(Unknown, 0, rest)
  {
    var s := "," + rest;
    forall k | 0 <= k < |table| ensures !NameAt(s, table[k].0) {
      assert GoodName(table[k].0);
    }
    assert s[1..] == rest;
  }

  lemma OneArgAt(table: Table, i: nat)
    requires GoodTable(table) && i < |table|
    ensures ParseArg(table, table[i].0 + ")", 0) == Reads(table[i].1, 0, ")")
  {
    ParseTypeName(table, i, ")");
    assert GoodName(table[i].0);
    assert (table[i].0 + ")")[0] == table[i].0[0];
  }

  lemma EmptyIntArgument()
    ensures ParseLine(TYPE_TABLE, "int f(,int)") == Some(Function("f", Int, [Unknown, Int], 0))
  {
    hide ParseLine;
    TypeTableGood();
    EmptyArgument(TYPE_TABLE, 1);
    assert "int" + (" f(," + ("int" + ")")) == "int f(,int)";
  }
}
