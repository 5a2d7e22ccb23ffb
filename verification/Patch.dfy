/** Planting and lifting trap instructions, word by word (sysdeps/linux-gnu/breakpoint.c). */
module Patch {
  import opened Base
  import opened Memory

  /** One entry of the breakpoint dictionary. */
  class Breakpoint {
    const addr: Addr
    const origValue: array<Byte>
    var enabled: int

    constructor (addr: Addr, length: nat)
      ensures this.addr == addr && enabled == 0
      ensures fresh(origValue) && origValue.Length == length
      ensures forall i :: 0 <= i < length ==> origValue[i] == 0
    {
      this.addr := addr;
      origValue := new Byte[length](_ => 0);
      enabled := 0;
    }
  }

  /** The loops' bound: how many words of `w` bytes are visited. */
  function WordsFor(length: nat, w: nat): (n: nat)
    requires length > 0 && w > 0
  {
    1 + (length - 1) / w
  }

  /** The byte offset of word number `i`. */
  function Offset(i: nat, w: nat): (off: nat)
  {
    if i == 0 then 0 else Offset(i - 1, w) + w
  }

  lemma {:induction false} OffsetIsProduct(i: nat, w: nat)
    ensures Offset(i, w) == i * w
  {
    if i > 0 {
      OffsetIsProduct(i - 1, w);
      assert i * w == (i - 1) * w + w;
    }
  }

  lemma Distribute(a: int, b: int, w: int)
    ensures (a + b) * w == a * w + b * w
  {
  }

  lemma Quotient(n: nat, w: nat)
    requires w > 0
    ensures n / w * w <= n < n / w * w + w
  {
  }

  /** The words visited cover the instruction, and each of them starts inside it. */
  lemma WordsCover(length: nat, w: nat, i: nat)
    requires length > 0 && w > 0
    ensures i < WordsFor(length, w) <==> Offset(i, w) < length
  {
    OffsetIsProduct(i, w);
    Quotient(length - 1, w);
    Multiples(length - 1, w, i, WordsFor(length, w) - 1);
  }

  lemma Multiples(n: nat, w: nat, i: nat, q: nat)
    requires q * w <= n < q * w + w
    ensures i <= q <==> i * w <= n
  {
    if i <= q {
      Distribute(i, q - i, w);
    } else {
      Distribute(q + 1, i - (q + 1), w);
      Distribute(q, 1, w);
    }
  }

  /** Memory once the first `off` bytes of the patch, or all of it, have been stored. */
  ghost function StoredTo(m: Text, a: Addr, insn: seq<Byte>, off: nat): Text {
    Store(m, a, insn[..Min(off, |insn|)])
  }

  lemma StoreNothing(m: Text, a: Addr, insn: seq<Byte>)
    ensures StoredTo(m, a, insn, 0) == m
  {
    SameText(m, StoredTo(m, a, insn, 0));
  }

  /** Storing the next word of a patch, spliced into what is there, extends what has been stored so far. */
  lemma StoreNextWord(m: Text, a: Addr, insn: seq<Byte>, off: nat, w: nat)
    requires off < |insn|
    ensures var s := StoredTo(m, a, insn, off);
      Store(s, a + off, Splice(insn, off, Bytes(s, a + off, w))) == StoredTo(m, a, insn, off + w)
    ensures forall x: Addr :: a + off <= x ==> StoredTo(m, a, insn, off)[x] == m[x]
  {
    var s := StoredTo(m, a, insn, off);
    SameText(Store(s, a + off, Splice(insn, off, Bytes(s, a + off, w))), StoredTo(m, a, insn, off + w));
  }

  /** The bytes the patch covers, as far as offset `off`, have been saved. */
  ghost predicate SavedTo(m: Text, sbp: Breakpoint, off: nat)
    reads sbp.origValue
  {
    forall k :: 0 <= k < sbp.origValue.Length && k < off ==> sbp.origValue[k] == m[sbp.addr + k]
  }

  method EnableBreakpoint(tracee: Tracee, sbp: Breakpoint, insn: seq<Byte>, w: nat)
    requires 0 < |insn| == sbp.origValue.Length && w > 0
    modifies tracee, sbp.origValue
    ensures sbp.origValue[..] == Bytes(old(tracee.text), sbp.addr, |insn|)
    ensures tracee.text == Store(old(tracee.text), sbp.addr, insn)
  {
    ghost var before := tracee.text;
    StoreNothing(before, sbp.addr, insn);
    var i, off := 0, 0;
    while i < WordsFor(|insn|, w)
      invariant 0 <= i && off == Offset(i, w)
      invariant tracee.text == StoredTo(before, sbp.addr, insn, off)
      invariant SavedTo(before, sbp, off)
      decreases WordsFor(|insn|, w) - i
    {
      WordsCover(|insn|, w, i);
      EnableWord(tracee, sbp, insn, off, w, before);
      i, off := i + 1, off + w;
    }
    WordsCover(|insn|, w, i);
    assert insn[..|insn|] == insn;
  }

  /** One round of enable_breakpoint: peek a word, save and replace its bytes in the inner loop, poke it. */
  method EnableWord(tracee: Tracee, sbp: Breakpoint, insn: seq<Byte>, off: nat, w: nat, ghost before: Text)
    requires off < |insn| == sbp.origValue.Length
    requires tracee.text == StoredTo(before, sbp.addr, insn, off) && SavedTo(before, sbp, off)
    modifies tracee, sbp.origValue
    ensures tracee.text == StoredTo(before, sbp.addr, insn, off + w) && SavedTo(before, sbp, off + w)
  {
    var word := tracee.Peek(sbp.addr + off, w);
    var a := SaveAndSplice(sbp, insn, off, word);
    StoreNextWord(before, sbp.addr, insn, off, w);
    tracee.Poke(sbp.addr + off, a);
  }

  /** The inner loop of enable_breakpoint. */
  method SaveAndSplice(sbp: Breakpoint, insn: seq<Byte>, off: nat, word: seq<Byte>) returns (a: seq<Byte>)
    requires off < |insn| == sbp.origValue.Length
    modifies sbp.origValue
    ensures a == Splice(insn, off, word)
    ensures forall k :: 0 <= k < |insn| ==>
      sbp.origValue[k] == if off <= k < off + |word| then word[k - off] else old(sbp.origValue[k])
  {
    a := word;
    var j := 0;
    while j < |word| && off + j < |insn|
      invariant 0 <= j <= |word| == |a| && off + j <= |insn|
      invariant forall k :: 0 <= k < |word| ==> a[k] == if k < j then insn[off + k] else word[k]
      invariant forall k :: 0 <= k < |insn| ==>
        sbp.origValue[k] == if off <= k < off + j then word[k - off] else old(sbp.origValue[k])
    {
      sbp.origValue[off + j] := a[j];
      a := a[j := insn[off + j]];
      j := j + 1;
    }
  }

  /** `word` with its bytes replaced by those of `insn` from offset `off` on, as far as `insn` goes. */
  function Splice(insn: seq<Byte>, off: nat, word: seq<Byte>): (a: seq<Byte>)
  {
    seq(|word|, k requires 0 <= k < |word| => if off + k < |insn| then insn[off + k] else word[k])
  }

  method DisableBreakpoint(tracee: Tracee, sbp: Breakpoint, w: nat)
    requires 0 < sbp.origValue.Length && w > 0
    modifies tracee
    ensures tracee.text == Store(old(tracee.text), sbp.addr, sbp.origValue[..])
  {
    ghost var before, saved := tracee.text, sbp.origValue[..];
    var length := sbp.origValue.Length;
    StoreNothing(before, sbp.addr, saved);
    var i, off := 0, 0;
    while i < WordsFor(length, w)
      invariant 0 <= i && off == Offset(i, w)
      invariant tracee.text == StoredTo(before, sbp.addr, saved, off)
      decreases WordsFor(length, w) - i
    {
      WordsCover(length, w, i);
      DisableWord(tracee, sbp, off, w, before);
      i, off := i + 1, off + w;
    }
    WordsCover(length, w, i);
    assert saved[..length] == saved;
  }

  /** One round of disable_breakpoint. */
  method DisableWord(tracee: Tracee, sbp: Breakpoint, off: nat, w: nat, ghost before: Text)
    requires off < sbp.origValue.Length
    requires tracee.text == StoredTo(before, sbp.addr, sbp.origValue[..], off)
    modifies tracee
    ensures tracee.text == StoredTo(before, sbp.addr, sbp.origValue[..], off + w)
  {
    var word := tracee.Peek(sbp.addr + off, w);
    var a := word;
    var j := 0;
    while j < w && off + j < sbp.origValue.Length
      invariant 0 <= j <= w == |a| && off + j <= sbp.origValue.Length
      invariant forall k :: 0 <= k < w ==> a[k] == if k < j then sbp.origValue[off + k] else word[k]
    {
      a := a[j := sbp.origValue[off + j]];
      j := j + 1;
    }
    assert a == Splice(sbp.origValue[..], off, word);
    StoreNextWord(before, sbp.addr, sbp.origValue[..], off, w);
    tracee.Poke(sbp.addr + off, a);
  }

  /** Lifting what was just planted leaves memory as it was. */
  lemma {:induction false} DisableUndoesEnable(m: Text, a: Addr, insn: seq<Byte>)
    ensures Store(Store(m, a, insn), a, Bytes(m, a, |insn|)) == m
  {
    SameText(Store(Store(m, a, insn), a, Bytes(m, a, |insn|)), m);
  }

  // --- any number of sites, planted and lifted in any order ---

  datatype Operation = Enable(site: Addr) | Disable(site: Addr)

  /** Memory together with the saved bytes of the sites that hold a trap. */
  datatype Patched = Patched(text: Text, saved: map<Addr, seq<Byte>>)

  predicate Apart(a: Addr, b: Addr, length: nat) {
    a + length <= b || b + length <= a
  }

  /** A site may be planted when it overlaps no planted site, and lifted when it is planted. */
  ghost predicate Allowed(p: Patched, length: nat, op: Operation) {
    match op
    case Enable(a) => forall b :: b in p.saved ==> Apart(a, b, length)
    case Disable(a) => a in p.saved
  }

  ghost function Apply(p: Patched, insn: seq<Byte>, op: Operation): (p': Patched)
    requires op.Disable? ==> op.site in p.saved
  {
    match op
    case Enable(a) => Patched(Store(p.text, a, insn), p.saved[a := Bytes(p.text, a, |insn|)])
    case Disable(a) => Patched(Store(p.text, a, p.saved[a]), p.saved - {a})
  }

  predicate InSite(a: Addr, x: Addr, length: nat) {
    a <= x < a + length
  }

  /** The byte at `x` belongs to the trap of a planted site, or is the original one. */
  ghost predicate ByteOk(original: Text, insn: seq<Byte>, p: Patched, x: Addr) {
    && (forall a :: a in p.saved && InSite(a, x, |insn|) ==> p.text[x] == insn[x - a])
    && ((forall a :: a in p.saved ==> !InSite(a, x, |insn|)) ==> p.text[x] == original[x])
  }

  /** `p` is `original` with exactly the sites in `p.saved` overwritten. */
  ghost predicate Overlay(original: Text, insn: seq<Byte>, p: Patched) {
    && (forall a, b :: a in p.saved && b in p.saved && a != b ==> Apart(a, b, |insn|))
    && (forall a :: a in p.saved ==> p.saved[a] == Bytes(original, a, |insn|))
    && (forall x: Addr :: ByteOk(original, insn, p, x))
  }

  ghost predicate AllAllowed(p: Patched, insn: seq<Byte>, ops: seq<Operation>)
    decreases |ops|
  {
    ops == [] || (Allowed(p, |insn|, ops[0]) && AllAllowed(Apply(p, insn, ops[0]), insn, ops[1..]))
  }

  ghost function ApplyAll(p: Patched, insn: seq<Byte>, ops: seq<Operation>): Patched
    requires AllAllowed(p, insn, ops)
    decreases |ops|
  {
    if ops == [] then p else ApplyAll(Apply(p, insn, ops[0]), insn, ops[1..])
  }

  lemma EnableKeepsOverlay(original: Text, insn: seq<Byte>, p: Patched, a: Addr)
    requires Overlay(original, insn, p) && Allowed(p, |insn|, Enable(a))
    ensures Overlay(original, insn, Apply(p, insn, Enable(a)))
  {
    var p' := Apply(p, insn, Enable(a));
    forall x: Addr ensures ByteOk(original, insn, p', x) {
      assert ByteOk(original, insn, p, x);
      if !InSite(a, x, |insn|) {
        assert forall b :: b in p.saved ==> b in p'.saved;
      }
    }
    forall x: Addr | InSite(a, x, |insn|) ensures p.text[x] == original[x] {
      assert ByteOk(original, insn, p, x);
    }
    assert Bytes(p.text, a, |insn|) == Bytes(original, a, |insn|) by {
      forall k | 0 <= k < |insn| ensures Bytes(p.text, a, |insn|)[k] == Bytes(original, a, |insn|)[k] {
        assert InSite(a, a + k, |insn|);
      }
    }
  }

  lemma DisableKeepsOverlay(original: Text, insn: seq<Byte>, p: Patched, a: Addr)
    requires Overlay(original, insn, p) && a in p.saved
    ensures Overlay(original, insn, Apply(p, insn, Disable(a)))
  {
    var p' := Apply(p, insn, Disable(a));
    forall x: Addr ensures ByteOk(original, insn, p', x) {
      assert ByteOk(original, insn, p, x);
      if InSite(a, x, |insn|) {
        assert p'.text[x] == Bytes(original, a, |insn|)[x - a];
      } else {
        assert forall b :: b in p.saved ==> b == a || b in p'.saved;
      }
    }
  }

  /** However sites are planted and lifted, memory is the original with the planted sites overwritten;
      so once every site has been lifted it is the original. */
  lemma {:induction false} AnyOrderRestores(original: Text, insn: seq<Byte>, p: Patched, ops: seq<Operation>)
    requires Overlay(original, insn, p) && AllAllowed(p, insn, ops)
    ensures Overlay(original, insn, ApplyAll(p, insn, ops))
    ensures ApplyAll(p, insn, ops).saved == map[] ==> ApplyAll(p, insn, ops).text == original
    decreases |ops|
  {
    if ops == [] {
      if p.saved == map[] {
        forall x: Addr ensures p.text[x] == original[x] {
          assert ByteOk(original, insn, p, x);
        }
        SameText(p.text, original);
      }
    } else {
      match ops[0] {
        case Enable(a) => EnableKeepsOverlay(original, insn, p, a);
        case Disable(a) => DisableKeepsOverlay(original, insn, p, a);
      }
      AnyOrderRestores(original, insn, Apply(p, insn, ops[0]), ops[1..]);
    }
  }
}
