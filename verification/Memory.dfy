/** Tracee memory: a total map from address to byte, read and written through ptrace words. */
module Memory {
  type Byte = b: int | 0 <= b < 256

  type Addr = nat

  ghost predicate Total(m: imap<Addr, Byte>) {
    forall a: Addr :: a in m
  }

  type Text = m: imap<Addr, Byte> | Total(m)
    ghost witness imap a: Addr | true :: 0

  /** The `w` bytes starting at `a`. */
  function Bytes(m: Text, a: Addr, w: nat): (bytes: seq<Byte>)
  {
    seq(w, k requires 0 <= k < w => assert Total(m); m[a + k])
  }

  /** `m` after one byte has been written. */
  function Put(m: Text, a: Addr, b: Byte): (m': Text)
    ensures forall x: Addr :: m'[x] == if x == a then b else m[x]
  {
    assert Total(m);
    m[a := b]
  }

  /** `m` after `bytes` has been written at `a`. */
  ghost function Store(m: Text, a: Addr, bytes: seq<Byte>): (m': Text)
  {
    imap x: Addr | true :: if a <= x < a + |bytes| then bytes[x - a] else assert Total(m); m[x]
  }

  /** Two memories with the same byte everywhere are the same memory. */
  lemma SameText(m: Text, m': Text)
    requires forall x: Addr :: m[x] == m'[x]
    ensures m == m'
  {
    assert Total(m) && Total(m');
  }

  /** The traced process's memory; a ptrace word has `w` bytes. */
  class Tracee {
    var text: Text

    constructor (initial: Text)
      ensures text == initial
    {
      text := initial;
    }

    /** ptrace(PTRACE_PEEKTEXT) */
    method Peek(a: Addr, w: nat) returns (word: seq<Byte>)
      ensures word == Bytes(text, a, w)
    {
      word := Bytes(text, a, w);
    }

    /** ptrace(PTRACE_POKETEXT) */
    method Poke(a: Addr, word: seq<Byte>)
      modifies this
      ensures text == Store(old(text), a, word)
    {
      ghost var before := text;
      SameText(before, Store(before, a, word[..0]));
      for k := 0 to |word|
        invariant text == Store(before, a, word[..k])
      {
        SameText(Put(text, a + k, word[k]), Store(before, a, word[..k + 1]));
        text := Put(text, a + k, word[k]);
      }
      assert word[..|word|] == word;
    }
  }
}
