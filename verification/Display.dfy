/** Fetching strings from the tracee and showing them escaped (umovestr of sysdeps/linux-gnu/trace.c,
    display_args.c). */
module Display {
  import opened Base
  import opened Memory

  const INT_MAX := 0x7fff_ffff

  // --- fetching ---

  /** The bytes from `a` up to the first NUL, at most `len` of them. */
  function Prefix(m: Text, a: Addr, len: nat): (s: seq<Byte>)
    ensures |s| <= len
    ensures forall i :: 0 <= i < |s| ==> s[i] == m[a + i] && s[i] != 0
    ensures |s| < len ==> m[a + |s|] == 0
    decreases len
  {
    if len == 0 || m[a] == 0 then [] else [m[a]] + Prefix(m, a + 1, len - 1)
  }

  /** The prefix is the only such sequence. */
  lemma {:induction false} PrefixIs(m: Text, a: Addr, len: nat, s: seq<Byte>)
    requires |s| <= len && (|s| < len ==> m[a + |s|] == 0)
    requires forall i :: 0 <= i < |s| ==> s[i] == m[a + i] && s[i] != 0
    ensures s == Prefix(m, a, len)
    decreases len
  {
    if s != [] {
      forall i | 0 <= i < |s[1..]| ensures s[1..][i] == m[a + 1 + i] {
        assert s[1..][i] == s[i + 1] == m[a + (i + 1)];
      }
      PrefixIs(m, a + 1, len - 1, s[1..]);
      assert s == [s[0]] + s[1..] && s[0] == m[a + 0];
    }
  }

  function NonNeg(n: int): nat {
    if n < 0 then 0 else n
  }

  /** umovestr: word by word, whatever the word size. The buffer gets the prefix and a NUL, and nothing more. */
  method Umovestr(tracee: Tracee, addr: Addr, len: int, laddr: array<Byte>, w: nat)
    requires w > 0 && laddr.Length > NonNeg(len)
    modifies laddr
    ensures var s := Prefix(tracee.text, addr, NonNeg(len));
      && laddr[..|s|] == s && laddr[|s|] == 0
      && forall i :: |s| < i < laddr.Length ==> laddr[i] == old(laddr[i])
  {
    var offset := 0;
    while offset < len
      invariant 0 <= offset <= NonNeg(len)
      invariant forall i :: 0 <= i < offset ==> laddr[i] == tracee.text[addr + i] && laddr[i] != 0
      invariant forall i :: offset <= i < laddr.Length ==> laddr[i] == old(laddr[i])
    {
      var a := tracee.Peek(addr + offset, w);
      var i := 0;
      while i < w
        invariant 0 <= i <= w && offset + i <= len
        invariant forall j :: 0 <= j < offset + i ==> laddr[j] == tracee.text[addr + j] && laddr[j] != 0
        invariant forall j :: offset + i <= j < laddr.Length ==> laddr[j] == old(laddr[j])
      {
        assert a[i] == tracee.text[addr + (offset + i)];
        if a[i] != 0 && offset + i < len {
          laddr[offset + i] := a[i];
        } else {
          laddr[offset + i] := 0;
          PrefixIs(tracee.text, addr, NonNeg(len), laddr[..offset + i]);
          return;
        }
        i := i + 1;
      }
      offset := offset + w;
    }
    laddr[offset] := 0;
    PrefixIs(tracee.text, addr, NonNeg(len), laddr[..offset]);
  }

  // --- escaping ---

  /** Three octal digits. */
  function Octal(n: nat): (s: string)
    requires n < 256
    ensures |s| == 3
  {
    [Digit(n / 64), Digit(n / 8 % 8), Digit(n % 8)]
  }

  /** display_char */
  function CharText(what: int): (s: string)
    ensures |s| > 0
  {
    if what == -1 then "EOF"
    else if what == 13 then "\\r"
    else if what == 10 then "\\n"
    else if what == 9 then "\\t"
    else if what == 8 then "\\b"
    else if what == 92 then "\\\\"
    else if what < 32 || what > 126 then "\\" + Octal(what % 256)
    else [what as char]
  }

  function Escape(bytes: seq<Byte>): string
    decreases |bytes|
  {
    if bytes == [] then "" else CharText(bytes[0]) + Escape(bytes[1..])
  }

  predicate IsOctal(c: char) {
    '0' <= c <= '7'
  }

  function OctalValue(a: char, b: char, c: char): int
    requires IsOctal(a) && IsOctal(b) && IsOctal(c)
  {
    (a as int - 48) * 64 + (b as int - 48) * 8 + (c as int - 48)
  }

  /** One shown character read back: the byte it stands for and what follows. */
  function ReadChar(s: string): (r: Option<(int, string)>)
    requires s != ""
    ensures r.Some? ==> |r.value.1| < |s|
  {
    if s[0] != '\\' then Some((s[0] as int, s[1..]))
    else if |s| < 2 then None
    else if s[1] == 'r' then Some((13, s[2..]))
    else if s[1] == 'n' then Some((10, s[2..]))
    else if s[1] == 't' then Some((9, s[2..]))
    else if s[1] == 'b' then Some((8, s[2..]))
    else if s[1] == '\\' then Some((92, s[2..]))
    else if |s| >= 4 && IsOctal(s[1]) && IsOctal(s[2]) && IsOctal(s[3]) then
      Some((OctalValue(s[1], s[2], s[3]), s[4..]))
    else None
  }

  function Unescape(s: string): Option<seq<int>>
    decreases |s|
  {
    if s == "" then Some([])
    else
      match ReadChar(s)
      case None => None
      case Some((b, rest)) =>
        match Unescape(rest)
        case None => None
        case Some(bs) => Some([b] + bs)
  }

  lemma OctalReads(n: nat)
    requires n < 256
    ensures IsOctal(Octal(n)[0]) && IsOctal(Octal(n)[1]) && IsOctal(Octal(n)[2])
    ensures OctalValue(Octal(n)[0], Octal(n)[1], Octal(n)[2]) == n
  {
  }

  lemma ReadsOctal(n: nat, rest: string)
    requires n < 256
    ensures ReadChar("\\" + Octal(n) + rest) == Some((n, rest))
  {
    var o := Octal(n);
    var s := "\\" + o + rest;
    OctalReads(n);
    assert s[0] == '\\' && s[1] == o[0] && s[2] == o[1] && s[3] == o[2] && s[4..] == rest;
  }

  lemma {:induction false} ReadsChar(b: Byte, rest: string)
    requires b != 0
    ensures ReadChar(CharText(b) + rest) == Some((b, rest))
  {
    hide Octal, OctalValue;
    if CharText(b) == "\\" + Octal(b) {
      ReadsOctal(b, rest);
    } else {
      var s := CharText(b) + rest;
      assert s[|CharText(b)|..] == rest && s[0] == CharText(b)[0];
      assert |CharText(b)| > 1 ==> s[1] == CharText(b)[1];
    }
  }

  /** No two strings of non-NUL bytes are shown alike: reading back recovers the bytes. */
  lemma {:induction false} UnescapeInverts(bytes: seq<Byte>)
    requires forall i :: 0 <= i < |bytes| ==> bytes[i] != 0
    ensures Unescape(Escape(bytes)) == Some(bytes)
    decreases |bytes|
  {
    if bytes != [] {
      ReadsChar(bytes[0], Escape(bytes[1..]));
      UnescapeInverts(bytes[1..]);
      assert bytes == [bytes[0]] + bytes[1..];
    }
  }

  predicate Printable(c: char) {
    ' ' <= c <= '~'
  }

  /** What is shown of a byte is printable: the byte itself when it is printable and no backslash, a letter behind a
      backslash for the five with a C escape, and else three octal digits behind one. */
  lemma {:induction false} CharShown(b: Byte)
    ensures forall i :: 0 <= i < |CharText(b)| ==> Printable(CharText(b)[i])
    ensures |CharText(b)| == if b in {8, 9, 10, 13, 92} then 2 else if 32 <= b <= 126 then 1 else 4
  {
    assert forall i :: 0 <= i < 3 ==> Printable(Octal(b)[i]);
  }

  /** So a string is shown in printable characters alone. */
  lemma {:induction false} EscapePrintable(bytes: seq<Byte>)
    ensures forall i :: 0 <= i < |Escape(bytes)| ==> Printable(Escape(bytes)[i])
    decreases |bytes|
  {
    hide CharText;
    if bytes != [] {
      CharShown(bytes[0]);
      EscapePrintable(bytes[1..]);
    }
  }

  // --- showing a string ---

  /** What is shown for the string at `a`: the escaped prefix within both limits, and dots when the string goes on
      past `optS` and `optS` is the limit in force. */
  function Shown(m: Text, a: Addr, optS: int, maxLength: int): string {
    if a == 0 then "NULL"
    else
      "\"" + Escape(Prefix(m, a, NonNeg(Min(optS, maxLength)))) + "\"" +
      if 0 <= optS <= maxLength && |Prefix(m, a, optS + 1)| > optS then "..." else ""
  }

  lemma {:induction false} PrefixShorter(m: Text, a: Addr, len: nat, longer: nat)
    requires len <= longer
    ensures Prefix(m, a, len) == Prefix(m, a, longer)[..Min(len, |Prefix(m, a, longer)|)]
  {
    var s := Prefix(m, a, longer);
    PrefixIs(m, a, len, s[..Min(len, |s|)]);
  }

  lemma {:induction false} EscapeAppend(bytes: seq<Byte>, b: Byte)
    ensures Escape(bytes + [b]) == Escape(bytes) + CharText(b)
    decreases |bytes|
  {
    if bytes == [] {
      assert [b][1..] == [];
    } else {
      assert (bytes + [b])[1..] == bytes[1..] + [b];
      EscapeAppend(bytes[1..], b);
    }
  }

  /** -s, and the limit display_stringN sets for one string. */
  class StringDisplay {
    const optS: int
    var stringMaxLength: int
    const tracee: Tracee

    constructor (optS: int, tracee: Tracee)
      ensures this.optS == optS && this.tracee == tracee && stringMaxLength == INT_MAX
    {
      this.optS, this.tracee, stringMaxLength := optS, tracee, INT_MAX;
    }

    /** display_string; with a limit below -2 the source's buffer would have no room for the final NUL. */
    method DisplayString(addr: Addr, w: nat) returns (text: string, len: nat)
      requires w > 0 && Min(optS, stringMaxLength) >= -2
      ensures text == Shown(tracee.text, addr, optS, stringMaxLength) && len == |text|
    {
      hide Escape, Prefix;
      if addr == 0 {
        return "NULL", 4;
      }
      var limit := Min(optS, stringMaxLength);
      var str1 := new Byte[limit + 3](_ => 0);
      Umovestr(tracee, addr, limit + 1, str1, w);
      ghost var whole := Prefix(tracee.text, addr, NonNeg(limit + 1));
      var quoted := ShowBytes(str1, limit, whole);
      PrefixShorter(tracee.text, addr, NonNeg(limit), NonNeg(limit + 1));
      text := quoted.0;
      if str1[quoted.1] != 0 && optS <= stringMaxLength {
        text := text + "...";
      } else {
        assert text + "" == text;
      }
      len := |text|;
    }

    /** The loop of display_string: the quoted text, and where the loop stopped. */
    method ShowBytes(str1: array<Byte>, limit: int, ghost whole: seq<Byte>) returns (r: (string, nat))
      requires limit >= -2 && str1.Length == limit + 3 && |whole| <= NonNeg(limit + 1)
      requires str1[..|whole|] == whole && str1[|whole|] == 0 && forall i :: 0 <= i < |whole| ==> whole[i] != 0
      ensures r.1 == Min(NonNeg(limit), |whole|)
      ensures r.0 == "\"" + Escape(whole[..r.1]) + "\""
    {
      hide CharText;
      var text := "\"";
      var i := 0;
      assert whole[..0] == [];
      while i < limit && str1[i] != 0
        invariant 0 <= i <= NonNeg(limit) && i <= |whole|
        invariant text == "\"" + Escape(whole[..i])
      {
        assert i < |whole| && str1[i] == whole[i];
        EscapeAppend(whole[..i], whole[i]);
        assert whole[..i + 1] == whole[..i] + [whole[i]];
        text := text + CharText(str1[i]);
        i := i + 1;
      }
      r := (text + "\"", i);
    }

    /** display_stringN: one string with its own limit, after which there is none again. */
    method DisplayStringN(limit: int, addr: Addr, w: nat) returns (text: string, len: nat)
      requires w > 0 && Min(optS, limit) >= -2
      modifies this
      ensures text == Shown(tracee.text, addr, optS, limit) && len == |text|
      ensures stringMaxLength == INT_MAX
    {
      stringMaxLength := limit;
      text, len := DisplayString(addr, w);
      stringMaxLength := INT_MAX;
    }
  }

  /** Dots exactly when -s is the limit in force and the byte after the last one shown is not the final NUL. */
  function Dots(m: Text, a: Addr, optS: nat, maxLength: nat, bytes: seq<Byte>): string {
    if optS <= maxLength && |bytes| == optS && m[a + optS] != 0 then "..." else ""
  }

  lemma GoesOn(m: Text, a: Addr, len: nat)
    ensures |Prefix(m, a, len + 1)| > len <==> |Prefix(m, a, len)| == len && m[a + len] != 0
  {
    var long := Prefix(m, a, len + 1);
    PrefixShorter(m, a, len, len + 1);
    if |long| > len {
      assert long[len] == m[a + len];
    } else {
      assert m[a + |long|] == 0;
    }
  }

  /** NULL is shown for the null pointer alone. */
  lemma NullShown(m: Text, a: Addr, optS: int, maxLength: int)
    ensures Shown(m, a, optS, maxLength) == "NULL" <==> a == 0
  {
    if a != 0 {
      assert Shown(m, a, optS, maxLength)[0] == '"';
    }
  }

  /** With a negative limit nothing is shown but the quotes. */
  lemma NothingShown(m: Text, a: Addr, optS: int, maxLength: int)
    requires a != 0 && Min(optS, maxLength) < 0
    ensures optS < 0 || maxLength < 0
    ensures Shown(m, a, optS, maxLength) == "\"\""
  {
  }

  /** What is shown between the quotes reads back as a prefix of the string, and the dots say whether more follows. */
  lemma ShownTells(m: Text, a: Addr, optS: nat, maxLength: nat) returns (bytes: seq<Byte>)
    requires a != 0
    ensures bytes == Prefix(m, a, Min(optS, maxLength)) && Unescape(Escape(bytes)) == Some(bytes)
    ensures Shown(m, a, optS, maxLength) == "\"" + Escape(bytes) + "\"" + Dots(m, a, optS, maxLength, bytes)
  {
    hide Escape, Unescape, Prefix;
    bytes := Prefix(m, a, Min(optS, maxLength));
    UnescapeInverts(bytes);
    if optS <= maxLength {
      GoesOn(m, a, optS);
    }
  }
}
