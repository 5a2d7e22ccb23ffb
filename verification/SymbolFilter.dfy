/** The -e option: its list of names (options.c) and the symbols it leaves (breakpoints.c). */
module SymbolFilter {
  import opened Memory
  import opened Tracer

  // --- the expression ---

  /** Where the first comma is, or the end. */
  function Comma(s: string): (k: nat)
    ensures k <= |s| && (k < |s| ==> s[k] == ',')
  {
    if s == "" || s[0] == ',' then 0 else 1 + Comma(s[1..])
  }

  lemma {:induction false} CommaIsFirst(s: string)
    ensures ',' !in s[..Comma(s)]
    decreases |s|
  {
    if s != "" && s[0] != ',' {
      CommaIsFirst(s[1..]);
      assert s[..Comma(s)] == [s[0]] + s[1..][..Comma(s[1..])];
    }
  }

  /** The names an expression lists, in the order it lists them. */
  function Tokens(s: string): seq<string>
    decreases |s|
  {
    if s == "" then []
    else if Comma(s) == |s| then [s]
    else [s[..Comma(s)]] + Tokens(s[Comma(s) + 1..])
  }

  function Join(names: seq<string>): string {
    if names == [] then ""
    else if |names| == 1 then names[0]
    else names[0] + "," + Join(names[1..])
  }

  lemma {:induction false} CommaAfter(s: string, rest: string)
    requires ',' !in s
    ensures Comma(s + "," + rest) == |s|
    decreases |s|
  {
    if s != "" {
      assert (s + "," + rest)[1..] == s[1..] + "," + rest;
      CommaAfter(s[1..], rest);
    }
  }

  lemma JoinCons(name: string, names: seq<string>)
    ensures Join([name] + names) == if names == [] then name else name + "," + Join(names)
  {
    assert ([name] + names)[1..] == names;
  }

  predicate EndsWithComma(s: string) {
    s != "" && s[|s| - 1] == ','
  }

  /** Splitting loses nothing but one comma at the very end. */
  lemma {:induction false} JoinTokens(s: string)
    ensures Join(Tokens(s)) + (if EndsWithComma(s) then "," else "") == s
    decreases |s|
  {
    var k := Comma(s);
    if s == "" {
      assert Join([]) == "";
    } else if k == |s| {
      CommaIsFirst(s);
      assert s[..k] == s;
      assert s[|s| - 1] in s;
      JoinCons(s, []);
      assert s + "" == s;
    } else {
      var rest := s[k + 1..];
      JoinTokens(rest);
      TokensHaveNoComma(rest);
      JoinCons(s[..k], Tokens(rest));
      Rejoin(s, k, Join(Tokens(rest)));
    }
  }

  lemma Rejoin(s: string, k: nat, joined: string)
    requires k < |s| && s[k] == ',' && joined + (if EndsWithComma(s[k + 1..]) then "," else "") == s[k + 1..]
    ensures (if s[k + 1..] == "" then s[..k] else s[..k] + "," + joined) + (if EndsWithComma(s) then "," else "") == s
  {
    assert s == s[..k] + "," + s[k + 1..];
    if s[k + 1..] != "" {
      var end := if EndsWithComma(s) then "," else "";
      assert (s[..k] + "," + joined) + end == s[..k] + "," + (joined + end);
    }
  }

  /** No name has a comma, and only the empty expression has no names. */
  lemma {:induction false} TokensHaveNoComma(s: string)
    ensures forall i :: 0 <= i < |Tokens(s)| ==> ',' !in Tokens(s)[i]
    ensures Tokens(s) == [] <==> s == ""
    decreases |s|
  {
    CommaIsFirst(s);
    if s != "" {
      if Comma(s) == |s| {
        assert s[..|s|] == s;
      } else {
        TokensHaveNoComma(s[Comma(s) + 1..]);
      }
    }
  }

  /** Every list of names without commas comes back from its expression, save an empty name at the very end. */
  lemma {:induction false} TokensJoin(names: seq<string>)
    requires forall i :: 0 <= i < |names| ==> ',' !in names[i]
    ensures Tokens(Join(names)) ==
      if names != [] && names[|names| - 1] == "" then names[..|names| - 1] else names
    decreases |names|
  {
    if |names| == 1 {
      OneToken(names[0]);
    } else if |names| > 1 {
      TokensJoin(names[1..]);
      FirstToken(names[0], Join(names[1..]));
    }
  }

  lemma {:induction false} NoComma(name: string)
    requires ',' !in name
    ensures Comma(name) == |name|
    decreases |name|
  {
    if name != "" {
      NoComma(name[1..]);
    }
  }

  lemma OneToken(name: string)
    requires ',' !in name
    ensures Tokens(name) == if name == "" then [] else [name]
  {
    if name != "" {
      NoComma(name);
    }
  }

  lemma FirstToken(name: string, rest: string)
    requires ',' !in name
    ensures Tokens(name + "," + rest) == [name] + Tokens(rest)
  {
    hide Comma;
    var all := name + "," + rest;
    CommaAfter(name, rest);
    assert all[..|name|] == name && all[|name| + 1..] == rest;
  }

  function Reversed(names: seq<string>): seq<string> {
    if names == [] then [] else Reversed(names[1..]) + [names[0]]
  }

  lemma {:induction false} ReversedAppend(names: seq<string>, name: string)
    ensures Reversed(names + [name]) == [name] + Reversed(names)
    decreases |names|
  {
    if names != [] {
      assert (names + [name])[1..] == names[1..] + [name];
      ReversedAppend(names[1..], name);
    }
  }

  // --- C strings in a buffer that is being cut up ---

  const NUL := '\0'

  function CString(chars: seq<char>, start: nat): (s: string)
    requires start <= |chars|
    ensures start + |s| <= |chars|
    decreases |chars| - start
  {
    if start == |chars| || chars[start] == NUL then ""
    else [chars[start]] + CString(chars, start + 1)
  }

  /** It reaches up to the first NUL. */
  lemma {:induction false} CStringSlice(chars: seq<char>, start: nat)
    requires start <= |chars|
    ensures var s := CString(chars, start);
      && s == chars[start..start + |s|] && NUL !in s
      && (start + |s| < |chars| ==> chars[start + |s|] == NUL)
    decreases |chars| - start
  {
    if start < |chars| && chars[start] != NUL {
      CStringSlice(chars, start + 1);
    }
  }

  lemma {:induction false} CStringIs(chars: seq<char>, start: nat, end: nat)
    requires start <= end < |chars| && chars[end] == NUL && NUL !in chars[start..end]
    ensures CString(chars, start) == chars[start..end]
    decreases end - start
  {
    if start < end {
      assert chars[start] in chars[start..end];
      assert chars[start..end][1..] == chars[start + 1..end];
      CStringIs(chars, start + 1, end);
    }
  }

  /** What comes after a string's end does not matter to it. */
  lemma {:induction false} CStringKept(before: seq<char>, after: seq<char>, start: nat, pos: nat)
    requires start <= |before| == |after| && start + |CString(before, start)| < pos <= |before|
    requires before[..pos] == after[..pos]
    ensures CString(after, start) == CString(before, start)
    decreases |before| - start
  {
    assert before[start] == before[..pos][start] == after[..pos][start] == after[start];
    if before[start] != NUL {
      CStringKept(before, after, start + 1, pos);
    }
  }

  lemma CStringTail(chars: seq<char>, start: nat, n: nat)
    requires start <= |chars| && n <= |CString(chars, start)|
    ensures CString(chars, start + n) == CString(chars, start)[n..]
    decreases n
  {
    if n > 0 {
      CStringTail(chars, start + 1, n - 1);
      assert CString(chars, start)[1..] == CString(chars, start + 1);
    }
  }

  ghost predicate Terminated(chars: seq<char>) {
    |chars| > 0 && chars[|chars| - 1] == NUL
  }

  /** An element of the list opt_e: a name inside a buffer. */
  class Word {
    const buf: array<char>
    const start: nat
    const next: Word?

    constructor (buf: array<char>, start: nat, next: Word?)
      ensures this.buf == buf && this.start == start && this.next == next
    {
      this.buf, this.start, this.next := buf, start, next;
    }

    ghost predicate Ended()
      reads buf
    {
      start < buf.Length && Terminated(buf[..])
    }

    ghost function Name(): string
      reads buf
    {
      if start <= buf.Length then CString(buf[..], start) else ""
    }

    /** strcmp(name, this name) == 0 */
    method Matches(name: string) returns (same: bool)
      requires Ended() && NUL !in name
      ensures same <==> name == Name()
    {
      hide CString;
      ghost var chars := buf[..];
      var k := 0;
      assert name[0..] == name;
      while k < |name| && buf[start + k] == name[k]
        invariant k <= |name| && start + k < buf.Length
        invariant name[k..] == CString(chars, start + k) <==> name == Name()
      {
        StepName(name[k..], chars, start + k);
        assert name[k..][1..] == name[k + 1..];
        k := k + 1;
      }
      StopName(name[k..], chars, start + k);
      same := k == |name| && buf[start + k] == NUL;
    }
  }

  lemma StopName(name: string, chars: seq<char>, start: nat)
    requires start < |chars| && (name == "" || chars[start] != name[0]) && NUL !in name
    ensures name == CString(chars, start) <==> name == "" && chars[start] == NUL
  {
  }

  lemma StepName(name: string, chars: seq<char>, start: nat)
    requires Terminated(chars) && name != "" && start < |chars| && chars[start] == name[0] && NUL !in name
    ensures start + 1 < |chars|
    ensures name == CString(chars, start) <==> name[1..] == CString(chars, start + 1)
  {
    assert name == [name[0]] + name[1..];
    assert CString(chars, start)[1..] == CString(chars, start + 1);
  }

  /** strchr(buf + start, ','), the end of the string when there is none */
  method Strchr(buf: array<char>, start: nat) returns (k: nat)
    requires Terminated(buf[..]) && start < buf.Length
    ensures k == start + Comma(CString(buf[..], start)) < buf.Length && (buf[k] == NUL || buf[k] == ',')
  {
    k := start;
    ghost var chars := buf[..];
    while buf[k] != NUL && buf[k] != ','
      invariant start <= k < buf.Length
      invariant start + Comma(CString(chars, start)) == k + Comma(CString(chars, k))
      decreases buf.Length - k
    {
      assert CString(chars, k)[1..] == CString(chars, k + 1);
      k := k + 1;
    }
  }

  /** opt_e and opt_e_enable */
  class Expressions {
    var optE: Word?
    var enable: bool
    ghost var words: seq<Word>
    ghost var buffers: set<array<char>>

    ghost predicate Valid()
      reads this`optE, this`words, this`buffers, buffers
    {
      && optE == At(words, 0)
      && forall i :: 0 <= i < |words| ==>
           words[i].next == At(words, i + 1) && words[i].buf in buffers && words[i].Ended()
    }

    static ghost function At(words: seq<Word>, i: nat): Word? {
      if i < |words| then words[i] else null
    }

    ghost function Names(): seq<string>
      requires Valid()
      reads this`optE, this`words, this`buffers, buffers
    {
      NamesOf(words, buffers)
    }

    static ghost function NamesOf(words: seq<Word>, buffers: set<array<char>>): (names: seq<string>)
      requires forall i :: 0 <= i < |words| ==> words[i].buf in buffers
      reads buffers
      ensures |names| == |words| && forall i :: 0 <= i < |words| ==> names[i] == words[i].Name()
    {
      seq(|words|, i requires 0 <= i < |words| reads buffers => words[i].Name())
    }

    static lemma NamesPrepend(w: Word, words: seq<Word>, buffers: set<array<char>>)
      requires forall i :: 0 <= i < |words| ==> words[i].buf in buffers
      ensures NamesOf([w] + words, buffers + {w.buf}) == [w.Name()] + NamesOf(words, buffers)
    {
      hide Word.Name;
    }

    constructor ()
      ensures Valid() && enable && Names() == [] && buffers == {}
    {
      optE, enable, words, buffers := null, true, [], {};
    }

    method First() returns (w: Word?)
      requires Valid()
      ensures w == At(words, 0) && |Names()| == |words|
    {
      w := optE;
    }

    lemma NoNames()
      requires Valid()
      ensures optE == null <==> Names() == []
    {
    }

    lemma WordAt(i: nat)
      requires Valid() && i < |words|
      ensures |Names()| == |words| && Names()[i] == words[i].Name()
      ensures words[i].next == At(words, i + 1) && words[i].Ended()
    {
    }

    /** The names inside `buf` all end before `pos`. */
    ghost predicate EndBefore(buf: array<char>, pos: nat)
      requires Valid()
      reads this`optE, this`words, this`buffers, buffers
    {
      forall i :: 0 <= i < |words| && words[i].buf == buf ==> words[i].start + |words[i].Name()| < pos
    }

    /** Overwriting a comma ends the name before it and leaves those found earlier alone. */
    method Cut(buf: array<char>, pos: nat, k: nat)
      requires Valid() && pos <= k < buf.Length && Terminated(buf[..]) && EndBefore(buf, pos)
      modifies buf
      ensures Valid() && Names() == old(Names()) && buf[..] == old(buf[..])[k := NUL] && EndBefore(buf, pos)
    {
      hide CString;
      ghost var before := buf[..];
      buf[k] := NUL;
      forall i | 0 <= i < |words|
        ensures words[i].Ended() && words[i].Name() == old(words[i].Name())
      {
        if words[i].buf == buf {
          CStringKept(before, buf[..], words[i].start, pos);
        }
      }
    }

    method Prepend(buf: array<char>, start: nat)
      requires Valid() && start < buf.Length && Terminated(buf[..])
      modifies this`optE, this`words, this`buffers
      ensures Valid() && buffers == old(buffers) + {buf}
      ensures |words| > 0 && words[1..] == old(words) && words[0].buf == buf && words[0].start == start
      ensures Names() == [CString(buf[..], start)] + old(Names())
    {
      hide CString, NamesOf, Terminated;
      var tmp := new Word(buf, start, optE);
      NamesPrepend(tmp, words, buffers);
      optE, words, buffers := tmp, [tmp] + words, buffers + {buf};
    }

    /** One round of the loop of process_options: the name from `pos` to `k` is cut off and put in front. */
    method Take(buf: array<char>, pos: nat, k: nat)
      requires Valid() && pos <= k < buf.Length && Terminated(buf[..]) && EndBefore(buf, pos)
      requires NUL !in buf[pos..k] && (buf[k] == NUL || buf[k] == ',')
      modifies this`optE, this`words, this`buffers, buf
      ensures Valid() && EndBefore(buf, k + 1) && buffers == old(buffers) + {buf}
      ensures buf[..] == old(buf[..])[k := NUL] && Terminated(buf[..])
      ensures Names() == [old(buf[pos..k])] + old(Names())
    {
      hide CString;
      Cut(buf, pos, k);
      assert buf[pos..k] == old(buf[pos..k]);
      CStringIs(buf[..], pos, k);
      Prepend(buf, pos);
      forall i | 0 <= i < |words| && words[i].buf == buf ensures words[i].start + |words[i].Name()| < k + 1 {
        assert i > 0 ==> words[i] == words[1..][i - 1] && words[i].Name() == old(Names())[i - 1];
      }
    }

    /** The loop of process_options. */
    method Split(strE: array<char>, start: nat)
      requires Valid() && start < strE.Length && Terminated(strE[..]) && EndBefore(strE, start)
      modifies this`optE, this`words, this`buffers, strE
      ensures Valid()
      ensures Names() == Reversed(Tokens(old(CString(strE[..], start)))) + old(Names())
    {
      hide Valid, EndBefore, CString, Tokens, Reversed, Names, Comma, Terminated, Progress;
      ghost var all := Tokens(CString(strE[..], start));
      ghost var earlier := Names();
      var pos := start;
      ghost var done: seq<string> := [];
      ProgressNone(all, earlier);
      while strE[pos] != NUL
        invariant pos < strE.Length && Terminated(strE[..]) && Valid() && EndBefore(strE, pos)
        invariant Progress(all, done, Tokens(CString(strE[..], pos)), Names(), earlier)
        decreases strE.Length - pos
      {
        var k := Strchr(strE, pos);
        var str2 := strE[k] == ',';
        ghost var chars := strE[..];
        OneMore(all, done, chars, pos, k, Names(), earlier);
        done := done + [chars[pos..k]];
        Take(strE, pos, k);
        if str2 {
          pos := k + 1;
        } else {
          return;
        }
      }
      NothingLeft(all, done, strE[..], pos, Names(), earlier);
    }

    /** The case 'e' of process_options; `strE` is the copy of its argument. */
    method Process(strE: array<char>)
      requires Valid() && Terminated(strE[..]) && strE !in buffers
      modifies this, strE
      ensures Valid()
      ensures var s := old(CString(strE[..], 0)); enable == (old(enable) && !Negated(s))
      ensures var s := old(CString(strE[..], 0)); Names() == Reversed(Tokens(Listed(s))) + old(Names())
    {
      hide Tokens, Reversed, Names;
      assert strE[0] == '!' ==> CString(strE[..], 0)[1..] == CString(strE[..], 1);
      if strE[0] == '!' {
        enable := false;
        Split(strE, 1);
      } else {
        Split(strE, 0);
      }
    }
  }

  /** `done` are the names found so far, `left` those to come and `names` the list built. */
  predicate Progress(all: seq<string>, done: seq<string>, left: seq<string>, names: seq<string>, earlier: seq<string>) {
    all == done + left && names == Reversed(done) + earlier
  }

  lemma ProgressNone(all: seq<string>, names: seq<string>)
    ensures Progress(all, [], all, names, names)
  {
  }

  /** One round of the loop. */
  lemma OneMore(all: seq<string>, done: seq<string>, chars: seq<char>, pos: nat, k: nat,
                names: seq<string>, earlier: seq<string>)
    requires Terminated(chars) && pos < |chars| && chars[pos] != NUL && k == pos + Comma(CString(chars, pos)) < |chars|
    requires chars[k] == NUL || chars[k] == ','
    requires Progress(all, done, Tokens(CString(chars, pos)), names, earlier)
    ensures pos <= k && NUL !in chars[pos..k]
    ensures chars[k] != ',' ==> [chars[pos..k]] + names == Reversed(all) + earlier
    ensures chars[k] == ',' ==>
      && k + 1 < |chars|
      && var left := Tokens(CString(chars[k := NUL], k + 1));
      Progress(all, done + [chars[pos..k]], left, [chars[pos..k]] + names, earlier)
  {
    hide CString, Tokens, Reversed, Comma;
    CutsToken(chars, pos, k);
    ReversedAppend(done, chars[pos..k]);
  }

  lemma NothingLeft(all: seq<string>, done: seq<string>, chars: seq<char>, pos: nat,
                    names: seq<string>, earlier: seq<string>)
    requires pos < |chars| && chars[pos] == NUL
    requires Progress(all, done, Tokens(CString(chars, pos)), names, earlier)
    ensures names == Reversed(all) + earlier
  {
    assert done + [] == done;
  }

  predicate Negated(s: string) {
    s != "" && s[0] == '!'
  }

  /** The expression without its leading '!'. */
  function Listed(s: string): string {
    if Negated(s) then s[1..] else s
  }

  lemma CutsToken(chars: seq<char>, pos: nat, k: nat)
    requires Terminated(chars) && pos < |chars| && chars[pos] != NUL && k == pos + Comma(CString(chars, pos)) < |chars|
    requires chars[k] == NUL || chars[k] == ','
    ensures pos <= k && NUL !in chars[pos..k]
    ensures var s := CString(chars, pos);
      if chars[k] == ',' then
        k + 1 < |chars| && Tokens(s) == [chars[pos..k]] + Tokens(CString(chars[k := NUL], k + 1))
      else
        Tokens(s) == [chars[pos..k]]
  {
    hide CString, Comma;
    var s := CString(chars, pos);
    CStringSlice(chars, pos);
    assert s != "";
    assert s[..k - pos] == chars[pos..k];
    if chars[k] == ',' {
      assert k - pos < |s|;
      CStringTail(chars, pos, k + 1 - pos);
      assert chars[k + 1..] == chars[k := NUL][k + 1..];
      SameTail(chars, chars[k := NUL], k + 1);
    } else {
      assert s[..k - pos] == s;
    }
  }

  lemma {:induction false} SameTail(before: seq<char>, after: seq<char>, start: nat)
    requires start <= |before| == |after| && before[start..] == after[start..]
    ensures CString(after, start) == CString(before, start)
    decreases |before| - start
  {
    if start < |before| {
      assert before[start] == before[start..][0] == after[start..][0] == after[start];
      assert before[start + 1..] == before[start..][1..] == after[start..][1..] == after[start + 1..];
      SameTail(before, after, start + 1);
    }
  }

  // --- the symbols ---

  /** With -e, the symbols on the list are kept, or, after a '!', the others. */
  predicate Wanted(names: seq<string>, enable: bool, name: string) {
    (name in names) == enable
  }

  function Kept(symbols: seq<Symbol>, names: seq<string>, enable: bool): (kept: seq<Symbol>) {
    if symbols == [] then []
    else
      var init, last := symbols[..|symbols| - 1], symbols[|symbols| - 1];
      Kept(init, names, enable) + if Wanted(names, enable, last.name) then [last] else []
  }

  /** Symbol `i`, if wanted, is kept in the place of the wanted ones before it, and nothing else is kept. */
  lemma {:induction false} KeptInOrder(symbols: seq<Symbol>, names: seq<string>, enable: bool, i: nat)
    requires i < |symbols|
    ensures var kept, place := Kept(symbols, names, enable), |Kept(symbols[..i], names, enable)|;
      if Wanted(names, enable, symbols[i].name) then
        place < |kept| && kept[place] == symbols[i] && |Kept(symbols[..i + 1], names, enable)| == place + 1
      else
        |Kept(symbols[..i + 1], names, enable)| == place
    decreases |symbols|
  {
    var init := symbols[..|symbols| - 1];
    if i < |init| {
      assert init[..i] == symbols[..i] && init[..i + 1] == symbols[..i + 1];
      KeptInOrder(init, names, enable, i);
    } else {
      assert symbols[..i + 1] == symbols;
    }
  }

  /** Exactly the wanted symbols are kept. */
  lemma {:induction false} KeptAreWanted(symbols: seq<Symbol>, names: seq<string>, enable: bool, sym: Symbol)
    ensures sym in Kept(symbols, names, enable) <==> sym in symbols && Wanted(names, enable, sym.name)
    decreases |symbols|
  {
    if symbols != [] {
      var init, last := symbols[..|symbols| - 1], symbols[|symbols| - 1];
      assert symbols == init + [last];
      KeptAreWanted(init, names, enable, sym);
    }
  }

  lemma {:induction false} ReversedHas(names: seq<string>, name: string)
    ensures name in Reversed(names) <==> name in names
    decreases |names|
  {
    if names != [] {
      assert names == [names[0]] + names[1..];
      ReversedHas(names[1..], name);
    }
  }

  lemma {:induction false} KeptByMembership(symbols: seq<Symbol>, names: seq<string>, enable: bool)
    ensures Kept(symbols, Reversed(names), enable) == Kept(symbols, names, enable)
    decreases |symbols|
  {
    if symbols != [] {
      KeptByMembership(symbols[..|symbols| - 1], names, enable);
      ReversedHas(names, symbols[|symbols| - 1].name);
    }
  }

  /** What one -e option leaves of the symbols: all of them when it names nothing. */
  function Selected(symbols: seq<Symbol>, s: string): seq<Symbol> {
    if Tokens(Listed(s)) == [] then symbols else Kept(symbols, Tokens(Listed(s)), !Negated(s))
  }

  /** A symbol is traced when its name is between the commas, or, after a '!', when it is not; with nothing to name,
      in any case. */
  lemma ExpressionSelects(s: string, symbols: seq<Symbol>, sym: Symbol)
    ensures sym in Selected(symbols, s) <==>
      sym in symbols && (Listed(s) == "" || (sym.name in Tokens(Listed(s)) <==> !Negated(s)))
  {
    TokensHaveNoComma(Listed(s));
    KeptAreWanted(symbols, Tokens(Listed(s)), !Negated(s), sym);
  }

  /** An expression selects the symbols between its commas, and the same behind a '!' all others. */
  lemma {:induction false} MarkExcludes(s: string, symbols: seq<Symbol>, sym: Symbol)
    requires s != "" && s[0] != '!' && sym in symbols
    ensures sym in Selected(symbols, s) <==> sym.name in Tokens(s)
    ensures sym in Selected(symbols, "!" + s) <==> sym.name !in Tokens(s)
  {
    hide Selected, Tokens;
    ExpressionSelects(s, symbols, sym);
    ExpressionSelects("!" + s, symbols, sym);
    assert ("!" + s)[1..] == s;
  }

  lemma KeptNext(symbols: seq<Symbol>, names: seq<string>, enable: bool, i: nat)
    requires i < |symbols|
    ensures Kept(symbols[..i + 1], names, enable) ==
      Kept(symbols[..i], names, enable) + if Wanted(names, enable, symbols[i].name) then [symbols[i]] else []
  {
    assert symbols[..i + 1][..i] == symbols[..i];
  }

  // --- the symbol table ---

  /** An entry of an executable's symbol table, with the name of its section. */
  datatype ElfSymbol = ElfSymbol(name: string, value: Addr, size: nat, other: nat, section: string, info: nat)

  const STT_FUNC := 2
  const STB_GLOBAL := 1

  /** Global functions of the program's own code. */
  predicate Traceable(e: ElfSymbol) {
    && e.value != 0 && e.size > 0 && e.other == 0 && e.section == ".text"
    && e.info % 16 == STT_FUNC && e.info / 16 == STB_GLOBAL
  }

  /** The traceable symbols, the last one first. */
  function Functions(elf: seq<ElfSymbol>): seq<Symbol> {
    if elf == [] then []
    else
      var symbols, last := Functions(elf[..|elf| - 1]), elf[|elf| - 1];
      if Traceable(last) then [Symbol(last.name, last.value)] + symbols else symbols
  }

  lemma {:induction false} FunctionsAre(elf: seq<ElfSymbol>, sym: Symbol)
    ensures sym in Functions(elf) <==>
      exists i :: 0 <= i < |elf| && Traceable(elf[i]) && sym == Symbol(elf[i].name, elf[i].value)
    decreases |elf|
  {
    if elf != [] {
      var init, last := elf[..|elf| - 1], elf[|elf| - 1];
      FunctionsAre(init, sym);
      assert forall i :: 0 <= i < |init| ==> init[i] == elf[i];
      if sym in Functions(init) {
        var i :| 0 <= i < |init| && Traceable(init[i]) && sym == Symbol(init[i].name, init[i].value);
        assert Traceable(elf[i]);
      }
    }
  }

  /** In terms of the entry's bytes: a function of the text section with a size and a value, default visibility, and
      global binding and function type in one byte. */
  lemma TraceableEntry(e: ElfSymbol)
    requires e.info < 256
    ensures Traceable(e) <==> e.value != 0 && e.size != 0 && e.other == 0 && e.section == ".text" && e.info == 0x12
  {
  }

  /** When several entries name one address, the tracer takes the last one's name. */
  lemma {:induction false} LastEntryNamed(elf: seq<ElfSymbol>, i: nat)
    requires i < |elf| && Traceable(elf[i])
    requires forall j :: i < j < |elf| && Traceable(elf[j]) ==> elf[j].value != elf[i].value
    ensures var symbols := Functions(elf);
      var k := FindSymbol(symbols, elf[i].value, 0);
      k < |symbols| && symbols[k] == Symbol(elf[i].name, elf[i].value)
    decreases |elf|
  {
    hide Traceable;
    var init, last := elf[..|elf| - 1], elf[|elf| - 1];
    if i < |init| {
      assert forall j :: 0 <= j < |init| ==> init[j] == elf[j];
      LastEntryNamed(init, i);
      if Traceable(last) {
        FoundBehind(Symbol(last.name, last.value), Functions(init), elf[i].value, 0);
      }
    }
  }

  lemma {:induction false} FoundBehind(sym: Symbol, symbols: seq<Symbol>, a: Addr, i: nat)
    requires i <= |symbols|
    ensures FindSymbol([sym] + symbols, a, i + 1) == FindSymbol(symbols, a, i) + 1
    decreases |symbols| - i
  {
    if i < |symbols| && symbols[i].enterAddr != a {
      FoundBehind(sym, symbols, a, i + 1);
    }
  }

  /** Whatever the option, no traced function is entered at address zero. */
  lemma {:induction false} SelectedEntered(elf: seq<ElfSymbol>, s: string, sym: Symbol)
    requires sym in Functions(elf) || sym in Selected(Functions(elf), s)
    ensures sym in Functions(elf) && sym.enterAddr != 0
  {
    hide Functions, Selected;
    ExpressionSelects(s, Functions(elf), sym);
    FunctionsAre(elf, sym);
  }

  /** An element of list_of_symbols. */
  class SymbolNode {
    const sym: Symbol
    var next: SymbolNode?

    constructor (sym: Symbol, next: SymbolNode?)
      ensures this.sym == sym && this.next == next
    {
      this.sym, this.next := sym, next;
    }
  }

  function SymbolsOf(nodes: seq<SymbolNode>): (symbols: seq<Symbol>)
    ensures |symbols| == |nodes| && forall i :: 0 <= i < |nodes| ==> symbols[i] == nodes[i].sym
  {
    seq(|nodes|, i requires 0 <= i < |nodes| => nodes[i].sym)
  }

  class SymbolList {
    var head: SymbolNode?
    ghost var nodes: seq<SymbolNode>

    static ghost function At(nodes: seq<SymbolNode>, i: nat): SymbolNode? {
      if i < |nodes| then nodes[i] else null
    }

    /** The list is acyclic and ends. */
    ghost predicate Valid()
      reads this, nodes
    {
      && head == At(nodes, 0)
      && (forall i :: 0 <= i < |nodes| ==> nodes[i].next == At(nodes, i + 1) && NUL !in nodes[i].sym.name)
      && (forall i, j :: 0 <= i < j < |nodes| ==> nodes[i] != nodes[j])
    }

    constructor ()
      ensures Valid() && nodes == []
    {
      head, nodes := null, [];
    }

    /** add_local_symbol: a symbol in front of the list. */
    method Add(sym: Symbol)
      requires Valid() && NUL !in sym.name
      modifies this
      ensures Valid() && |nodes| > 0 && fresh(nodes[0]) && nodes == [nodes[0]] + old(nodes)
      ensures SymbolsOf(nodes) == [sym] + SymbolsOf(old(nodes))
    {
      var node := new SymbolNode(sym, head);
      head, nodes := node, [node] + nodes;
    }

    /** Walking the list meets every symbol in turn. */
    method Symbols() returns (symbols: seq<Symbol>)
      requires Valid()
      ensures symbols == SymbolsOf(nodes)
    {
      symbols := [];
      var sym := head;
      ghost var i := 0;
      while sym != null
        invariant 0 <= i <= |nodes| && sym == At(nodes, i) && symbols == SymbolsOf(nodes)[..i]
        decreases |nodes| - i
      {
        symbols := symbols + [sym.sym];
        sym := sym.next;
        i := i + 1;
      }
    }

    /** *tmp1, where tmp1 points at the head or into the node `prev` */
    method Deref(prev: SymbolNode?, ghost n: nat) returns (sym: SymbolNode?)
      requires Valid() && n <= |nodes| && prev == Before(nodes, n)
      ensures sym == At(nodes, n) && (sym != null ==> NUL !in sym.sym.name)
    {
      if prev == null {
        return head;
      }
      assert prev.next == At(nodes, n - 1 + 1);
      return prev.next;
    }

    static ghost function Before(nodes: seq<SymbolNode>, n: nat): SymbolNode?
      requires n <= |nodes|
    {
      if n == 0 then null else nodes[n - 1]
    }

    static function Without<T>(s: seq<T>, n: nat): seq<T>
      requires n < |s|
    {
      s[..n] + s[n + 1..]
    }

    static lemma AtIs(nodes: seq<SymbolNode>)
      ensures forall i :: 0 <= i < |nodes| ==> At(nodes, i) == nodes[i]
      ensures At(nodes, |nodes|) == null
    {
    }

    static lemma WithoutAt(nodes: seq<SymbolNode>, n: nat)
      requires n < |nodes|
      ensures |Without(nodes, n)| == |nodes| - 1
      ensures forall j :: 0 <= j < |nodes| ==> At(Without(nodes, n), j) == At(nodes, if j < n then j else j + 1)
      ensures forall j :: 0 <= j < |nodes| - 1 ==> Without(nodes, n)[j] == nodes[if j < n then j else j + 1]
    {
    }

    /** *tmp1 = (*tmp1)->next */
    method Unlink(prev: SymbolNode?, ghost n: nat)
      requires Valid() && n < |nodes| && prev == Before(nodes, n)
      modifies this, if prev == null then {} else {prev}
      ensures Valid() && nodes == Without(old(nodes), n)
    {
      hide Without, At, SymbolsOf;
      ghost var was := nodes;
      AtIs(was);
      assert n > 0 ==> was[n - 1].next == At(was, n - 1 + 1);
      var sym := if prev == null then head else prev.next;
      assert sym == was[n] && sym.next == At(was, n + 1);
      if prev == null {
        head := sym.next;
      } else {
        prev.next := sym.next;
      }
      nodes := Without(was, n);
      WithoutAt(was, n);
      forall j | 0 <= j < |nodes|
        ensures nodes[j].next == At(nodes, j + 1) && NUL !in nodes[j].sym.name
      {
        ghost var x := if j < n then j else j + 1;
        assert nodes[j] == was[x] && old(was[x].next) == At(was, x + 1);
        assert (was[x] == prev) == (j == n - 1);
      }
    }

    /** Where the loop stands: `kept` of the nodes before number `i`, then the rest. */
    ghost predicate Stands(all: seq<SymbolNode>, kept: seq<SymbolNode>, i: nat, names: seq<string>, enable: bool)
      reads this`nodes
    {
      && i <= |all| && nodes == kept + all[i..] && (forall x :: x in kept ==> x in all)
      && SymbolsOf(kept) == Kept(SymbolsOf(all)[..i], names, enable)
    }

    lemma AtCursor(all: seq<SymbolNode>, kept: seq<SymbolNode>, i: nat, names: seq<string>, enable: bool)
      requires Stands(all, kept, i, names, enable)
      ensures i <= |all| && |kept| <= |nodes|
      ensures At(nodes, |kept|) == At(all, i)
      ensures Before(nodes, |kept|) == null || Before(nodes, |kept|) in all
    {
    }

    static lemma Moves(all: seq<SymbolNode>, kept: seq<SymbolNode>, i: nat, names: seq<string>, enable: bool)
      requires i < |all| && (forall x :: x in kept ==> x in all)
      requires SymbolsOf(kept) == Kept(SymbolsOf(all)[..i], names, enable)
      ensures var now, kept' := kept + all[i..], kept + [all[i]];
        if Wanted(names, enable, all[i].sym.name) then
          && now == kept' + all[i + 1..] && (forall x :: x in kept' ==> x in all)
          && SymbolsOf(kept') == Kept(SymbolsOf(all)[..i + 1], names, enable)
        else
          && Without(now, |kept|) == kept + all[i + 1..]
          && SymbolsOf(kept) == Kept(SymbolsOf(all)[..i + 1], names, enable)
    {
      hide Kept;
      KeptNext(SymbolsOf(all), names, enable, i);
      assert SymbolsOf(kept + [all[i]]) == SymbolsOf(kept) + [all[i].sym];
    }

    /** The node at the cursor is passed over. */
    method Drop(prev: SymbolNode?, ghost all: seq<SymbolNode>, ghost kept: seq<SymbolNode>, ghost i: nat,
                ghost names: seq<string>, ghost enable: bool)
      requires Valid() && Stands(all, kept, i, names, enable) && prev == Before(nodes, |kept|)
      requires i < |all| && !Wanted(names, enable, all[i].sym.name)
      modifies this, if prev == null then {} else {prev}
      ensures Valid() && Stands(all, kept, i + 1, names, enable) && prev == Before(nodes, |kept|)
    {
      hide Valid, Kept, Wanted;
      Moves(all, kept, i, names, enable);
      Unlink(prev, |kept|);
    }

    lemma Retain(all: seq<SymbolNode>, kept: seq<SymbolNode>, i: nat, names: seq<string>, enable: bool)
      requires Stands(all, kept, i, names, enable) && i < |all| && Wanted(names, enable, all[i].sym.name)
      ensures Stands(all, kept + [all[i]], i + 1, names, enable)
      ensures |kept| + 1 <= |nodes| && Before(nodes, |kept| + 1) == all[i]
    {
      hide Kept, Wanted;
      Moves(all, kept, i, names, enable);
    }

    lemma Begin(names: seq<string>, enable: bool)
      ensures Stands(nodes, [], 0, names, enable)
    {
    }

    lemma End(all: seq<SymbolNode>, kept: seq<SymbolNode>, names: seq<string>, enable: bool)
      requires Stands(all, kept, |all|, names, enable)
      ensures SymbolsOf(nodes) == Kept(SymbolsOf(all), names, enable)
    {
      assert kept + all[|all|..] == kept;
      assert SymbolsOf(all)[..|all|] == SymbolsOf(all);
    }

    /** The symbol at the cursor is unlinked or the cursor moves into it. */
    method Advance(prev: SymbolNode?, sym: SymbolNode, keep: bool, ghost all: seq<SymbolNode>,
                   ghost kept: seq<SymbolNode>, ghost i: nat, ghost names: seq<string>, ghost enable: bool)
      returns (tmp1: SymbolNode?, ghost kept': seq<SymbolNode>)
      requires Valid() && Stands(all, kept, i, names, enable) && |kept| <= |nodes|
      requires prev == Before(nodes, |kept|) && sym == At(nodes, |kept|) && keep == Wanted(names, enable, sym.sym.name)
      modifies this, all
      ensures Valid() && Stands(all, kept', i + 1, names, enable)
      ensures |kept'| <= |nodes| && tmp1 == Before(nodes, |kept'|)
    {
      hide Valid, Kept, Wanted, Stands;
      AtCursor(all, kept, i, names, enable);
      if !keep {
        Drop(prev, all, kept, i, names, enable);
        tmp1, kept' := prev, kept;
      } else {
        Retain(all, kept, i, names, enable);
        tmp1, kept' := sym, kept + [sym];
      }
      AtCursor(all, kept', i + 1, names, enable);
    }

    /** The -e loop of breakpoints_init. */
    method Filter(e: Expressions)
      requires Valid() && e.Valid()
      modifies this, nodes
      ensures Valid()
      ensures SymbolsOf(nodes) ==
        if e.optE == null then SymbolsOf(old(nodes)) else Kept(SymbolsOf(old(nodes)), e.Names(), e.enable)
    {
      hide Valid, Kept, Wanted, Expressions.Names, Stands, Expressions.Valid, SymbolsOf;
      if e.optE != null {
        ghost var all := nodes;
        ghost var kept: seq<SymbolNode> := [];
        ghost var i := 0;
        var prev: SymbolNode? := null;
        Begin(e.Names(), e.enable);
        var sym := Deref(prev, 0);
        while sym != null
          invariant Valid() && Stands(all, kept, i, e.Names(), e.enable)
          invariant |kept| <= |nodes| && prev == Before(nodes, |kept|) && sym == At(nodes, |kept|)
          invariant sym != null ==> NUL !in sym.sym.name
          decreases |all| - i
        {
          AtCursor(all, kept, i, e.Names(), e.enable);
          var keep := Keep(sym.sym.name, e);
          prev, kept := Advance(prev, sym, keep, all, kept, i, e.Names(), e.enable);
          i := i + 1;
          sym := Deref(prev, |kept|);
        }
        AtCursor(all, kept, i, e.Names(), e.enable);
        End(all, kept, e.Names(), e.enable);
      }
    }

    /** The inner loop: whether a symbol of that name is kept. */
    method Keep(name: string, e: Expressions) returns (keep: bool)
      requires e.Valid() && NUL !in name
      ensures keep == Wanted(e.Names(), e.enable, name)
    {
      hide Expressions.Valid, Expressions.Names;
      keep := !e.enable;
      var tmp2 := e.First();
      ghost var i := 0;
      while tmp2 != null
        invariant 0 <= i <= |e.words| == |e.Names()| && tmp2 == Expressions.At(e.words, i)
        invariant keep == Wanted(e.Names()[..i], e.enable, name)
        decreases |e.words| - i
      {
        e.WordAt(i);
        var same := tmp2.Matches(name);
        assert e.Names()[..i + 1] == e.Names()[..i] + [e.Names()[i]];
        if same {
          keep := e.enable;
        }
        tmp2 := tmp2.next;
        i := i + 1;
      }
      assert e.Names()[..i] == e.Names();
    }
  }

  /** The loop of read_elf over the symbol table. */
  method ReadElf(elf: seq<ElfSymbol>) returns (symbols: SymbolList)
    requires forall i :: 0 <= i < |elf| ==> NUL !in elf[i].name
    ensures symbols.Valid() && fresh(symbols) && forall k :: 0 <= k < |symbols.nodes| ==> fresh(symbols.nodes[k])
    ensures SymbolsOf(symbols.nodes) == Functions(elf)
  {
    hide SymbolList.Valid, Traceable;
    symbols := new SymbolList();
    for i := 0 to |elf|
      invariant symbols.Valid() && fresh(symbols) && forall k :: 0 <= k < |symbols.nodes| ==> fresh(symbols.nodes[k])
      invariant SymbolsOf(symbols.nodes) == Functions(elf[..i])
    {
      assert elf[..i + 1][..i] == elf[..i];
      if Traceable(elf[i]) {
        symbols.Add(Symbol(elf[i].name, elf[i].value));
      }
    }
    assert elf[..|elf|] == elf;
  }

  /** The option and the list together: on a fresh list of names, exactly the selected symbols are left, in order. */
  method Select(optarg: array<char>, symbols: SymbolList)
    requires symbols.Valid() && Terminated(optarg[..])
    modifies optarg, symbols, symbols.nodes
    ensures symbols.Valid()
    ensures SymbolsOf(symbols.nodes) == Selected(old(SymbolsOf(symbols.nodes)), old(CString(optarg[..], 0)))
  {
    hide SymbolList.Valid, Kept, Tokens, Reversed, CString;
    ghost var s := CString(optarg[..], 0);
    var e := new Expressions();
    e.Process(optarg);
    symbols.Filter(e);
    e.NoNames();
    ReversedLength(Tokens(Listed(s)));
    KeptByMembership(old(SymbolsOf(symbols.nodes)), Tokens(Listed(s)), !Negated(s));
    assert Reversed(Tokens(Listed(s))) + [] == Reversed(Tokens(Listed(s)));
  }

  lemma {:induction false} ReversedLength(names: seq<string>)
    ensures |Reversed(names)| == |names|
    decreases |names|
  {
    if names != [] {
      ReversedLength(names[1..]);
    }
  }
}
