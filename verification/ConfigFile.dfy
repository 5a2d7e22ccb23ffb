/** The configuration file's loop (read_config_file.c) and what a lookup then finds. */
module ConfigFile {
  import opened Base
  import opened ConfigParser
  import opened ConfigReader
  import P = Printer

  const LINE_SIZE := 1024

  /** list_of_functions after the lines of a file: what each accepted line describes, the last one first. */
  function Described(lines: seq<string>): seq<Function> {
    if lines == [] then []
    else
      var before := Described(lines[..|lines| - 1]);
      match ParseLine(TYPE_TABLE, lines[|lines| - 1])
      case None => before
      case Some(f) => [f] + before
  }

  predicate Describes(line: string, name: string) {
    var f := ParseLine(TYPE_TABLE, line);
    f.Some? && f.value.name == name
  }

  lemma {:induction false} FindBehind(f: Function, functions: seq<Function>, name: string, i: nat)
    requires i <= |functions|
    ensures P.FindFunction([f] + functions, name, i + 1) == P.FindFunction(functions, name, i) + 1
    decreases |functions| - i
  {
    if i < |functions| && functions[i].name != name {
      FindBehind(f, functions, name, i + 1);
    }
  }

  /** Line `i` describes `name` as `f`, and no later line describes it. */
  predicate LastOf(lines: seq<string>, name: string, f: Function, i: nat) {
    && i < |lines| && ParseLine(TYPE_TABLE, lines[i]) == Some(f) && f.name == name
    && forall j :: i < j < |lines| ==> !Describes(lines[j], name)
  }

  lemma LastOfLonger(lines: seq<string>, name: string, f: Function, i: nat)
    requires lines != [] && LastOf(lines[..|lines| - 1], name, f, i) && !Describes(lines[|lines| - 1], name)
    ensures LastOf(lines, name, f, i)
  {
    hide Describes, ParseLine, TYPE_TABLE;
    var init := lines[..|lines| - 1];
    assert forall j :: 0 <= j < |init| ==> lines[j] == init[j];
  }

  /** A name stands for what the last line that describes it says, and for nothing exactly when no line does. */
  lemma {:induction false} LastLineWins(lines: seq<string>, name: string)
    ensures match P.Lookup(Described(lines), name)
      case None => forall i :: 0 <= i < |lines| ==> !Describes(lines[i], name)
      case Some(f) => exists i :: LastOf(lines, name, f, i)
    decreases |lines|
  {
    hide ParseLine;
    if lines != [] {
      hide LastOf;
      var init, last := lines[..|lines| - 1], lines[|lines| - 1];
      LastLineWins(init, name);
      LookupNext(lines, name);
      if Describes(last, name) {
        ItsOwnLast(lines, name);
      } else if P.Lookup(Described(init), name).Some? {
        var f := P.Lookup(Described(init), name).value;
        var i :| LastOf(init, name, f, i);
        LastOfLonger(lines, name, f, i);
      } else {
        assert forall i :: 0 <= i < |init| ==> lines[i] == init[i];
      }
    }
  }

  lemma ItsOwnLast(lines: seq<string>, name: string)
    requires lines != [] && Describes(lines[|lines| - 1], name)
    ensures LastOf(lines, name, ParseLine(TYPE_TABLE, lines[|lines| - 1]).value, |lines| - 1)
  {
  }

  lemma LookupNext(lines: seq<string>, name: string)
    requires lines != []
    ensures var init, last := lines[..|lines| - 1], lines[|lines| - 1];
      P.Lookup(Described(lines), name) ==
      if Describes(last, name) then ParseLine(TYPE_TABLE, last) else P.Lookup(Described(init), name)
  {
    hide ParseLine;
    var init, last := lines[..|lines| - 1], lines[|lines| - 1];
    if ParseLine(TYPE_TABLE, last).Some? {
      FindBehind(ParseLine(TYPE_TABLE, last).value, Described(init), name, 0);
    }
  }

  /** Every description fits what the printer asks of one. */
  lemma {:induction false} DescribedFit(lines: seq<string>)
    ensures P.AllFit(Described(lines))
    decreases |lines|
  {
    hide ParseLine;
    if lines != [] {
      DescribedFit(lines[..|lines| - 1]);
      ParsedFits(TYPE_TABLE, lines[|lines| - 1]);
    }
  }

  /** fgets: the next line, with a NUL behind it. */
  method Fgets(buf: array<char>, line: string)
    requires |line| < buf.Length && '\0' !in line
    modifies buf
    ensures CString(buf, 0, |line|) && buf[..|line|] == line
  {
    for i := 0 to |line|
      invariant buf[..i] == line[..i]
    {
      assert line[..i + 1] == line[..i] + [line[i]];
      buf[i] := line[i];
      assert buf[..i + 1] == buf[..i] + [line[i]];
    }
    buf[|line|] := '\0';
    assert buf[..|line|] == line;
    assert forall i :: 0 <= i < |line| ==> buf[i] == buf[..|line|][i] && line[i] in line;
  }

  /** read_config_file, where fgets gives `lines`; `known` are the functions read from earlier files. */
  method ReadConfigFile(lines: seq<string>, known: seq<Function>) returns (functions: seq<Function>)
    requires forall i :: 0 <= i < |lines| ==> |lines[i]| < LINE_SIZE && '\0' !in lines[i]
    requires P.AllFit(known)
    ensures functions == Described(lines) + known && P.AllFit(functions)
  {
    hide ParseLine;
    TypeTableNulFree();
    var buf := new char[LINE_SIZE];
    functions := known;
    for i := 0 to |lines|
      invariant functions == Described(lines[..i]) + known
    {
      assert lines[..i + 1][..i] == lines[..i];
      Fgets(buf, lines[i]);
      var tmp := ProcessLine(TYPE_TABLE, buf, |lines[i]|);
      if tmp.Some? {
        functions := [tmp.value] + functions;
      }
    }
    assert lines[..|lines|] == lines;
    DescribedFit(lines);
  }
}
