/** The cursor-based parser of read_config_file.c, proved against the parser on strings. */
module ConfigReader {
  import opened Base
  import opened ConfigParser

  /** The C string that starts at `str` ends with the NUL at `end`. */
  ghost predicate CString(buf: array<char>, str: nat, end: nat)
    reads buf
  {
    str <= end < buf.Length && buf[end] == '\0' && forall i :: str <= i < end ==> buf[i] != '\0'
  }

  method EatSpaces(buf: array<char>, str: nat, ghost end: nat) returns (rest: nat)
    requires CString(buf, str, end)
    ensures str <= rest <= end && buf[rest..end] == Strip(buf[str..end])
  {
    rest := str;
    while buf[rest] == ' '
      invariant str <= rest <= end
      invariant Strip(buf[rest..end]) == Strip(buf[str..end])
      decreases end - rest
    {
      assert buf[rest..end][1..] == buf[rest + 1..end];
      rest := rest + 1;
    }
  }

  /** strncmp(str, name, strlen(name)) == 0 */
  method StartsWith(buf: array<char>, str: nat, name: string, ghost end: nat) returns (b: bool)
    requires CString(buf, str, end) && '\0' !in name
    ensures b <==> name <= buf[str..end]
  {
    var k := 0;
    while k < |name| && buf[str + k] == name[k]
      invariant 0 <= k <= |name| && str + k <= end
      invariant buf[str..str + k] == name[..k]
    {
      assert name[k] in name;
      k := k + 1;
    }
    b := k == |name|;
    if b {
      assert buf[str..end][..k] == buf[str..str + k];
    } else {
      assert str + k < end ==> buf[str..end][k] == buf[str + k];
    }
  }

  /** The names of the table are C strings. */
  ghost predicate NulFree(table: Table) {
    forall i :: 0 <= i < |table| ==> '\0' !in table[i].0
  }

  method Str2Type(table: Table, buf: array<char>, str: nat, ghost end: nat) returns (pt: ArgType, rest: nat)
    requires NulFree(table) && CString(buf, str, end)
    ensures str <= rest <= end && (pt, buf[rest..end]) == ParseType(table, buf[str..end])
  {
    var tmp := 0;
    while tmp < |table|
      invariant 0 <= tmp <= |table|
      invariant FindType(table, buf[str..end], 0) == FindType(table, buf[str..end], tmp)
    {
      var name, t := table[tmp].0, table[tmp].1;
      var starts := StartsWith(buf, str, name, end);
      if starts {
        assert str + |name| < end ==> buf[str..end][|name|] == buf[str + |name|];
        var c := buf[str + |name|];
        if c == '\0' || Terminator(c) {
          assert buf[str..end][|name|..] == buf[str + |name|..end];
          return t, str + |name|;
        }
      }
      tmp := tmp + 1;
    }
    return Unknown, str;
  }

  lemma TypeTableNulFree()
    ensures NulFree(TYPE_TABLE)
  {
    assert forall i :: 0 <= i < |TYPE_TABLE| ==> |TYPE_TABLE[i].0| <= 7;
  }

  method StartOfArgSig(buf: array<char>, str: nat, ghost end: nat) returns (r: Option<nat>)
    requires CString(buf, str, end)
    ensures match ScanBack(buf[str..end], end - str, 0)
      case None => r == None
      case Some(p) => r == Some(str + p)
  {
    ghost var s := buf[str..end];
    var pos := str;
    while buf[pos] != '\0'
      invariant str <= pos <= end
      decreases end - pos
    {
      pos := pos + 1;
    }
    if pos == str {
      return None;
    }
    var stacked := 0;
    while true
      invariant str <= pos <= end && stacked >= 0
      invariant ScanBack(s, pos - str, stacked) == ScanBack(s, |s|, 0)
      decreases pos
    {
      if pos == str {
        return None;
      }
      pos := pos - 1;
      while pos > str && buf[pos] != ')' && buf[pos] != '('
        invariant str <= pos < end
        invariant ScanBack(s, pos + 1 - str, stacked) == ScanBack(s, |s|, 0)
      {
        assert s[pos - str] == buf[pos];
        pos := pos - 1;
      }
      assert s[pos - str] == buf[pos];
      if buf[pos] == ')' {
        stacked := stacked + 1;
      } else if buf[pos] == '(' {
        stacked := stacked - 1;
      } else {
        return None;
      }
      if stacked <= 0 {
        return if stacked == 0 then Some(pos) else None;
      }
    }
  }

  /** process_line: reads one signature, cutting the line in two at the argument list. */
  method ProcessLine(table: Table, buf: array<char>, ghost end: nat) returns (r: Option<Function>)
    requires NulFree(table) && CString(buf, 0, end)
    modifies buf
    ensures r == ParseLine(table, old(buf[..end]))
    ensures forall i :: 0 <= i < buf.Length ==>
      buf[i] == old(buf[i]) || (old(buf[i]) == '(' && buf[i] == '\0')
  {
    assert buf[..end] == buf[0..end];
    var str := EatSpaces(buf, 0, end);
    var returnType: ArgType;
    returnType, str := Str2Type(table, buf, str, end);
    if returnType == Unknown {
      return None;
    }
    str := EatSpaces(buf, str, end);
    r := ReadSignature(table, buf, str, end, returnType);
  }

  /** The part of process_line that reads the name and the arguments. */
  method ReadSignature(table: Table, buf: array<char>, str: nat, ghost end: nat, returnType: ArgType)
    returns (r: Option<Function>)
    requires NulFree(table) && CString(buf, str, end)
    modifies buf
    ensures r == ParseSignature(table, returnType, old(buf[str..end]))
    ensures forall i :: 0 <= i < buf.Length ==>
      buf[i] == old(buf[i]) || (old(buf[i]) == '(' && buf[i] == '\0')
  {
    hide ScanBack, ParseArgs, NulFree;
    ghost var s := buf[str..end];
    var tmp := StartOfArgSig(buf, str, end);
    if tmp == None {
      return None;
    }
    var name := Cut(buf, str, tmp.value, end);
    assert s[..tmp.value - str] == name;
    assert s[tmp.value - str + 1..] == buf[tmp.value + 1..end];
    r := ReadArgs(table, buf, tmp.value + 1, end, name, returnType);
  }

  /** Ends the name with a NUL and copies it. */
  method Cut(buf: array<char>, str: nat, tmp: nat, ghost end: nat) returns (name: string)
    requires CString(buf, str, end) && str <= tmp < end && buf[tmp] == '('
    modifies buf
    ensures name == old(buf[str..tmp])
    ensures buf[tmp] == '\0' && forall i :: 0 <= i < buf.Length && i != tmp ==> buf[i] == old(buf[i])
    ensures CString(buf, tmp + 1, end) && buf[tmp + 1..end] == old(buf[tmp + 1..end])
  {
    buf[tmp] := '\0';
    name := buf[str..tmp];
  }

  /** The argument loop of process_line. */
  method ReadArgs(table: Table, buf: array<char>, start: nat, ghost end: nat, name: string, returnType: ArgType)
    returns (r: Option<Function>)
    requires NulFree(table) && CString(buf, start, end)
    ensures match ParseArgs(table, buf[start..end], [], 0)
      case None => r == None
      case Some((types, right)) => r == Some(Function(name, returnType, types, right))
  {
    var str := start;
    var argTypes := new ArgType[MAX_ARGS];
    var i, right := 0, 0;
    while i < MAX_ARGS
      invariant 0 <= i <= MAX_ARGS && start <= str <= end
      invariant ParseArgs(table, buf[str..end], argTypes[..i], right) == ParseArgs(table, buf[start..end], [], 0)
    {
      var round: ArgRound;
      ghost var before := argTypes[..i];
      round, str := ReadArg(table, buf, str, end, right);
      match round
      case Ends => return Some(Function(name, returnType, argTypes[..i], right));
      case Malformed => return None;
      case Reads(pt, right', _) =>
        argTypes[i] := pt;
        assert argTypes[..i + 1] == before + [pt];
        right := right';
        i := i + 1;
    }
    return Some(Function(name, returnType, argTypes[..i], right));
  }

  /** One round of the argument loop; `rest` is where the next one starts. */
  method ReadArg(table: Table, buf: array<char>, str: nat, ghost end: nat, right: nat)
    returns (round: ArgRound, rest: nat)
    requires NulFree(table) && CString(buf, str, end)
    ensures str <= rest <= end
    ensures match ParseArg(table, buf[str..end], right)
      case Reads(pt, right', s) => buf[rest..end] == s && round == Reads(pt, right', "")
      case r => round == r
  {
    rest := EatSpaces(buf, str, end);
    ghost var t := buf[rest..end];
    assert t != "" ==> t[0] == buf[rest];
    if buf[rest] == ')' {
      return Ends, rest;
    }
    var right' := right;
    if buf[rest] == '+' {
      assert t[1..] == buf[rest + 1..end];
      right' := right + 1;
      rest := rest + 1;
    } else if right > 0 {
      right' := right + 1;
    }
    round, rest := ReadTyped(table, buf, rest, end, right');
  }

  method ReadTyped(table: Table, buf: array<char>, str: nat, ghost end: nat, right: nat)
    returns (round: ArgRound, rest: nat)
    requires NulFree(table) && CString(buf, str, end)
    ensures str <= rest <= end
    ensures match ParseTyped(table, buf[str..end], right)
      case Reads(pt, right', s) => buf[rest..end] == s && round == Reads(pt, right', "")
      case r => round == r
  {
    var pt: ArgType;
    pt, rest := Str2Type(table, buf, str, end);
    rest := EatSpaces(buf, rest, end);
    ghost var u := buf[rest..end];
    assert u != "" ==> u[0] == buf[rest];
    if buf[rest] == ',' {
      assert u[1..] == buf[rest + 1..end];
      rest := rest + 1;
    } else if buf[rest] != ')' {
      return Malformed, rest;
    }
    return Reads(pt, right, ""), rest;
  }
}
