/** Thread ids to process ids: the status file's parser and the cache in front of it (sysdeps/linux-gnu/proc.c). */
module TgidCache {
  import opened Base

  // --- parse_tgid_str ---

  const NUL := '\0'
  const TAG := "Tgid:"

  predicate TagAt(chars: seq<char>, i: nat) {
    i + |TAG| <= |chars| && chars[i..i + |TAG|] == TAG
  }

  /** strstr(chars + i, "Tgid:") as an index, past the end when there is none before the NUL. */
  function FindTag(chars: seq<char>, i: nat): (k: nat)
    ensures k <= |chars|
    decreases |chars| - i
  {
    if i >= |chars| || chars[i] == NUL then |chars|
    else if TagAt(chars, i) then i
    else FindTag(chars, i + 1)
  }

  /** Where the digits start, or the line or the string ends. */
  function SkipToDigits(chars: seq<char>, i: nat): (k: nat)
    ensures i <= |chars| ==> i <= k <= |chars|
    decreases |chars| - i
  {
    if i >= |chars| || chars[i] == NUL || chars[i] == '\n' || IsDigit(chars[i]) then i
    else SkipToDigits(chars, i + 1)
  }

  function DigitsFrom(chars: seq<char>, i: nat): (digits: string)
    ensures forall j :: 0 <= j < |digits| ==> IsDigit(digits[j])
    decreases |chars| - i
  {
    if i >= |chars| || !IsDigit(chars[i]) then "" else [chars[i]] + DigitsFrom(chars, i + 1)
  }

  const BUF_SIZE := 10

  /** The number after the first "Tgid:", 0 when there is none or it has as many digits as the buffer has room. */
  function Parse(chars: seq<char>): nat {
    var k := FindTag(chars, 0);
    if k == |chars| then 0
    else
      var digits := DigitsFrom(chars, SkipToDigits(chars, k + |TAG|));
      if |digits| >= BUF_SIZE then 0 else Atoi(digits)
  }

  /** The scan ends inside the buffer: at a NUL, or at a line's end behind the tag. */
  ghost predicate Ends(chars: seq<char>, stop: nat) {
    stop < |chars| &&
    (chars[stop] == NUL || (chars[stop] == '\n' && exists k: nat :: k + |TAG| <= stop && TagAt(chars, k)))
  }

  // --- printing and parsing agree ---

  lemma {:induction false} FindsTag(chars: seq<char>, i: nat, k: nat)
    requires i <= k && TagAt(chars, k)
    requires forall j :: i <= j < k ==> !TagAt(chars, j) && chars[j] != NUL
    ensures FindTag(chars, i) == k
    decreases k - i
  {
    if i < k {
      FindsTag(chars, i + 1, k);
    } else {
      assert chars[k] == chars[k..k + |TAG|][0];
    }
  }

  lemma {:induction false} Skips(chars: seq<char>, i: nat, k: nat)
    requires i <= k < |chars| && IsDigit(chars[k])
    requires forall j :: i <= j < k ==> chars[j] != NUL && chars[j] != '\n' && !IsDigit(chars[j])
    ensures SkipToDigits(chars, i) == k
    decreases k - i
  {
    if i < k {
      Skips(chars, i + 1, k);
    }
  }

  lemma {:induction false} ReadsDigits(chars: seq<char>, i: nat, k: nat)
    requires i <= k < |chars| && !IsDigit(chars[k])
    requires forall j :: i <= j < k ==> IsDigit(chars[j])
    ensures DigitsFrom(chars, i) == chars[i..k]
    decreases k - i
  {
    if i < k {
      ReadsDigits(chars, i + 1, k);
    }
  }

  /** A status text whose first "Tgid:" stands before `n`: nothing after the number matters. */
  ghost predicate StatusOf(chars: seq<char>, before: string, gap: string, n: nat, after: string) {
    && chars == before + "Tgid:" + gap + Decimal(n) + after
    && NUL !in before && (forall i :: 0 <= i < |before| ==> !TagAt(before, i))
    && (forall i :: 0 <= i < |gap| ==> gap[i] != NUL && gap[i] != '\n' && !IsDigit(gap[i]))
    && after != "" && !IsDigit(after[0])
  }

  lemma NoEarlierTag(before: string, rest: string, i: nat)
    requires i < |before| && !TagAt(before, i)
    ensures !TagAt(before + (TAG + rest), i)
  {
    var chars := before + (TAG + rest);
    if i + |TAG| <= |before| {
      assert chars[i..i + |TAG|] == before[i..i + |TAG|];
    } else {
      var j := |before| - i;
      assert chars[|before|] == 'T' && 0 < j < |TAG| && TAG[j] != 'T';
      assert chars[i..i + |TAG|][j] == chars[|before|];
    }
  }

  /** The tag first at `k`, the number's digits from `i` to `end`. */
  lemma FindsNumber(chars: seq<char>, k: nat, i: nat, end: nat)
    requires k + |TAG| <= i < end < |chars| && TagAt(chars, k)
    requires forall j :: 0 <= j < k ==> !TagAt(chars, j) && chars[j] != NUL
    requires forall j :: k + |TAG| <= j < i ==> chars[j] != NUL && chars[j] != '\n' && !IsDigit(chars[j])
    requires (forall j :: i <= j < end ==> IsDigit(chars[j])) && !IsDigit(chars[end])
    ensures Parse(chars) == if end - i >= BUF_SIZE then 0 else Atoi(chars[i..end])
  {
    FindsTag(chars, 0, k);
    Skips(chars, k + |TAG|, i);
    ReadsDigits(chars, i, end);
  }

  /** Parsing inverts printing up to nine digits; longer numbers give 0. */
  lemma ParseInverts(chars: seq<char>, before: string, gap: string, n: nat, after: string)
    requires StatusOf(chars, before, gap, n, after)
    ensures Parse(chars) == if n < 1_000_000_000 then n else 0
  {
    hide Parse, Atoi, Decimal;
    var digits, k := Decimal(n), |before|;
    var i, rest := k + |TAG| + |gap|, gap + digits + after;
    assert chars == before + (TAG + rest);
    forall j | 0 <= j < k ensures !TagAt(chars, j) && chars[j] != NUL {
      NoEarlierTag(before, rest, j);
      assert chars[j] == before[j];
    }
    assert forall j :: k + |TAG| <= j < i ==> chars[j] == gap[j - k - |TAG|];
    assert forall j :: i <= j < i + |digits| ==> chars[j] == digits[j - i];
    assert chars[i + |digits|] == after[0];
    FindsNumber(chars, k, i, i + |digits|);
    assert chars[i..i + |digits|] == digits;
    NineDigits(n);
    AtoiDecimal(n);
  }

  /** A status text with a line's end behind the number is one the parser stays inside of. */
  lemma StatusEnds(chars: seq<char>, before: string, gap: string, n: nat, after: string, j: nat)
    requires StatusOf(chars, before, gap, n, after) && j < |after| && after[j] == '\n'
    ensures Ends(chars, |before| + |TAG| + |gap| + |Decimal(n)| + j)
  {
    var k := |before|;
    assert chars[k..k + |TAG|] == TAG;
    assert TagAt(chars, k);
    assert chars[k + |TAG| + |gap| + |Decimal(n)| + j] == after[j];
  }

  lemma NineDigits(n: nat)
    ensures |Decimal(n)| <= 9 <==> n < 1_000_000_000
  {
    DecimalLength(n, 9);
    assert Pow10(3) == 1000;
    assert Pow10(6) == 1_000_000;
    assert Pow10(9) == 1_000_000_000;
  }

  // --- the parser's loops ---

  /** Whether `pattern` stands at `i`, read up to the first difference. */
  method TagHere(buf: array<char>, i: nat, ghost stop: nat) returns (found: bool)
    requires Ends(buf[..], stop) && i <= stop
    ensures found == TagAt(buf[..], i) && (found ==> i + |TAG| <= stop)
  {
    var j := 0;
    while j < |TAG| && buf[i + j] == TAG[j]
      invariant j <= |TAG| && i + j <= stop && buf[i..i + j] == TAG[..j]
    {
      j := j + 1;
    }
    found := j == |TAG|;
    assert !found && i + |TAG| <= buf.Length ==> buf[..][i..i + |TAG|][j] != TAG[j];
  }

  method Strstr(buf: array<char>, ghost stop: nat) returns (k: nat)
    requires Ends(buf[..], stop)
    ensures k == FindTag(buf[..], 0) && (k < buf.Length ==> k + |TAG| <= stop)
  {
    k := 0;
    while buf[k] != NUL
      invariant k <= stop && FindTag(buf[..], 0) == FindTag(buf[..], k)
      invariant forall j :: 0 <= j < k ==> !TagAt(buf[..], j)
      decreases stop - k
    {
      var found := TagHere(buf, k, stop);
      if found {
        return;
      }
      k := k + 1;
    }
    k := buf.Length;
  }

  /** atoi of the digits before the NUL at `end` */
  method ToInt(buf: array<char>, ghost end: nat) returns (n: nat)
    requires end < buf.Length && !IsDigit(buf[end]) && forall j :: 0 <= j < end ==> IsDigit(buf[j])
    ensures n == Atoi(buf[..end])
  {
    n := 0;
    var i := 0;
    while IsDigit(buf[i])
      invariant i <= end && n == Atoi(buf[..i])
      decreases end - i
    {
      assert buf[..i + 1][..i] == buf[..i];
      n := 10 * n + (buf[i] as int - '0' as int);
      i := i + 1;
    }
  }

  method SkipTo(buf: array<char>, start: nat, ghost stop: nat) returns (p: nat)
    requires Ends(buf[..], stop) && start <= stop
    ensures start <= p <= stop && p == SkipToDigits(buf[..], start)
  {
    p := start;
    while buf[p] != NUL && buf[p] != '\n' && !IsDigit(buf[p])
      invariant start <= p <= stop && SkipToDigits(buf[..], start) == SkipToDigits(buf[..], p)
      decreases stop - p
    {
      p := p + 1;
    }
  }

  lemma EndIsNoDigit(chars: seq<char>, stop: nat)
    requires Ends(chars, stop)
    ensures stop < |chars| && !IsDigit(chars[stop])
  {
  }

  lemma DigitsNext(chars: seq<char>, p: nat)
    requires p < |chars|
    ensures DigitsFrom(chars, p) == if IsDigit(chars[p]) then [chars[p]] + DigitsFrom(chars, p + 1) else ""
  {
  }

  /** Copies the digits from `start` and ends them with a NUL, unless they fill `buf`. */
  method CopyDigits(procStr: array<char>, start: nat, buf: array<char>, ghost stop: nat) returns (lp: nat)
    requires Ends(procStr[..], stop) && start <= stop && buf.Length == BUF_SIZE && buf != procStr
    modifies buf
    ensures var digits := DigitsFrom(procStr[..], start);
      if |digits| >= BUF_SIZE then lp == BUF_SIZE
      else lp == |digits| && buf[..lp] == digits && buf[lp] == NUL
  {
    hide DigitsFrom, Ends;
    ghost var chars := procStr[..];
    ghost var digits := DigitsFrom(chars, start);
    var p := start;
    lp := 0;
    EndIsNoDigit(chars, stop);
    while IsDigit(procStr[p])
      invariant p <= stop && lp < BUF_SIZE && digits == buf[..lp] + DigitsFrom(chars, p)
      decreases stop - p
    {
      ghost var copied := buf[..lp];
      DigitsNext(chars, p);
      buf[lp] := procStr[p];
      assert buf[..lp + 1] == copied + [procStr[p]];
      lp, p := lp + 1, p + 1;
      if lp > BUF_SIZE - 1 {
        return;
      }
    }
    DigitsNext(chars, p);
    buf[lp] := NUL;
  }

  /** parse_tgid_str: `buf` never takes more than its ten characters. */
  method ParseTgidStr(procStr: array<char>, ghost stop: nat) returns (tgid: nat)
    requires Ends(procStr[..], stop)
    ensures tgid == Parse(procStr[..])
  {
    hide Ends, FindTag, SkipToDigits, DigitsFrom, Atoi;
    var p := Strstr(procStr, stop);
    if p == procStr.Length {
      return 0;
    }
    p := SkipTo(procStr, p + |TAG|, stop);
    ghost var digits := DigitsFrom(procStr[..], p);
    var buf := new char[BUF_SIZE];
    var lp := CopyDigits(procStr, p, buf, stop);
    if lp == BUF_SIZE {
      return 0;
    }
    assert forall j :: 0 <= j < lp ==> buf[j] == digits[j];
    tgid := ToInt(buf, lp);
  }

  // --- the cache ---

  const CACHE_SIZE := 10
  const REF_MAX := 0xFFFF_FFFF

  /** A cached pair; `pid` 0 marks a free slot. */
  datatype Slot = Slot(pid: nat, tgid: nat, refCount: nat)

  type Slots = s: seq<Slot> | |s| == CACHE_SIZE witness seq(CACHE_SIZE, _ => Slot(0, 0, 0))

  /** The first slot from `i` on that is `pid`'s, or past the end. */
  function FindSlot(slots: Slots, pid: nat, i: nat): (k: nat)
    requires i <= CACHE_SIZE
    ensures i <= k <= CACHE_SIZE && (k < CACHE_SIZE ==> slots[k].pid == pid)
    ensures forall j :: i <= j < k ==> slots[j].pid != pid
    decreases CACHE_SIZE - i
  {
    if i == CACHE_SIZE || slots[i].pid == pid then i else FindSlot(slots, pid, i + 1)
  }

  /** The slot that gives way: the last one whose count is below the starting value, which is never lowered. */
  function Victim(slots: Slots, n: nat): (k: nat)
    requires n <= CACHE_SIZE
    ensures k < CACHE_SIZE
  {
    if n == 0 then 0 else if REF_MAX > slots[n - 1].refCount then n - 1 else Victim(slots, n - 1)
  }

  /** pid2tgid_cache_get: the answer and the cache after it. */
  function GetFrom(slots: Slots, pid: nat): (nat, Slots) {
    var k := FindSlot(slots, pid, 0);
    if pid == 0 || k == CACHE_SIZE then (0, slots)
    else (slots[k].tgid, slots[k := slots[k].(refCount := slots[k].refCount + 1)])
  }

  /** pid2tgid_cache_put */
  function PutInto(slots: Slots, pid: nat, tgid: nat): Slots {
    var mine, free := FindSlot(slots, pid, 0), FindSlot(slots, 0, 0);
    if pid == 0 || (mine < CACHE_SIZE && mine <= free) then slots
    else
      var k := if free < CACHE_SIZE then free else Victim(slots, CACHE_SIZE);
      slots[k := slots[k].(pid := pid, tgid := tgid)]
  }

  function Flushed(): Slots {
    seq(CACHE_SIZE, _ => Slot(0, 0, 0))
  }

  /** Occupied slots come first, with different pids, each with the tgid that `tgidOf` gives its pid. */
  ghost predicate Sound(slots: Slots, tgidOf: nat -> nat) {
    && (forall i, j :: 0 <= i < j < CACHE_SIZE && slots[j].pid != 0 ==>
          slots[i].pid != 0 && slots[i].pid != slots[j].pid)
    && (forall i :: 0 <= i < CACHE_SIZE && slots[i].pid != 0 ==> slots[i].tgid == tgidOf(slots[i].pid))
  }

  /** pid2tgid, when the status file of `pid` reads `status`. */
  function Ask(slots: Slots, pid: nat, status: seq<char>): (nat, Slots) {
    var (hit, slots') := GetFrom(slots, pid);
    if hit != 0 then (hit, slots')
    else
      var tgid := Parse(status);
      (tgid, if tgid != 0 then PutInto(slots', pid, tgid) else slots')
  }

  lemma GetSound(slots: Slots, pid: nat, tgidOf: nat -> nat)
    requires Sound(slots, tgidOf)
    ensures Sound(GetFrom(slots, pid).1, tgidOf)
    ensures GetFrom(slots, pid).0 != 0 ==> GetFrom(slots, pid).0 == tgidOf(pid)
  {
  }

  lemma PutSound(slots: Slots, pid: nat, tgidOf: nat -> nat)
    requires Sound(slots, tgidOf)
    ensures Sound(PutInto(slots, pid, tgidOf(pid)), tgidOf)
    ensures var mine := FindSlot(slots, pid, 0);
      pid != 0 && mine < CACHE_SIZE ==> mine <= FindSlot(slots, 0, 0)
  {
  }

  /** One question, over a fixed assignment of process ids. */
  lemma AskSound(slots: Slots, pid: nat, status: seq<char>, tgidOf: nat -> nat)
    requires Sound(slots, tgidOf) && Parse(status) == tgidOf(pid)
    ensures Ask(slots, pid, status).0 == tgidOf(pid) && Sound(Ask(slots, pid, status).1, tgidOf)
  {
    hide GetFrom, PutInto, Sound, Parse;
    GetSound(slots, pid, tgidOf);
    PutSound(GetFrom(slots, pid).1, pid, tgidOf);
  }

  /** A question that cannot be answered leaves the cache as it was. */
  lemma NoAnswerLeaves(slots: Slots, pid: nat, status: seq<char>)
    requires FindSlot(slots, pid, 0) == CACHE_SIZE && Parse(status) == 0
    ensures Ask(slots, pid, status) == (0, slots)
  {
  }

  datatype Call = Lookup(pid: nat, status: seq<char>) | Flush

  /** The answers to a sequence of calls. */
  function Answers(slots: Slots, calls: seq<Call>): seq<nat>
    decreases |calls|
  {
    if calls == [] then []
    else match calls[0]
      case Lookup(pid, status) => [Ask(slots, pid, status).0] + Answers(Ask(slots, pid, status).1, calls[1..])
      case Flush => [0] + Answers(Flushed(), calls[1..])
  }

  /** The cache is transparent: however calls are ordered, each answer is what the status file would give. */
  lemma {:induction false} Transparent(slots: Slots, calls: seq<Call>, tgidOf: nat -> nat)
    requires Sound(slots, tgidOf)
    requires forall i :: 0 <= i < |calls| && calls[i].Lookup? ==> Parse(calls[i].status) == tgidOf(calls[i].pid)
    ensures |Answers(slots, calls)| == |calls|
    ensures forall i :: 0 <= i < |calls| && calls[i].Lookup? ==>
      Answers(slots, calls)[i] == Parse(calls[i].status)
    decreases |calls|
  {
    if calls != [] {
      hide Parse, Ask;
      var rest := calls[1..];
      if calls[0].Lookup? {
        AskSound(slots, calls[0].pid, calls[0].status, tgidOf);
        Transparent(Ask(slots, calls[0].pid, calls[0].status).1, rest, tgidOf);
      } else {
        Transparent(Flushed(), rest, tgidOf);
      }
    }
  }

  /** In general the last slot below the limit gives way, and the first one when there is none. */
  lemma {:induction false} VictimIsLastBelow(slots: Slots, n: nat)
    requires n <= CACHE_SIZE
    ensures var k := Victim(slots, n);
      if exists i :: 0 <= i < n && slots[i].refCount < REF_MAX then
        k < n && slots[k].refCount < REF_MAX && forall i :: k < i < n ==> slots[i].refCount >= REF_MAX
      else
        k == 0
    decreases n
  {
    if n > 0 && slots[n - 1].refCount >= REF_MAX {
      VictimIsLastBelow(slots, n - 1);
    }
  }

  /** The cache after a sequence of calls. */
  function After(slots: Slots, calls: seq<Call>): Slots {
    if calls == [] then slots
    else
      var before, last := After(slots, calls[..|calls| - 1]), calls[|calls| - 1];
      if last.Lookup? then Ask(before, last.pid, last.status).1 else Flushed()
  }

  function StatusText(n: nat): string {
    "" + TAG + "\t" + Decimal(n) + "\n"
  }

  lemma StatusTextParses(n: nat)
    requires n < 1_000_000_000
    ensures Parse(StatusText(n)) == n
  {
    ParseInverts(StatusText(n), "", "\t", n, "\n");
  }

  /** Each of the processes 1 to 10 is asked for once, the last one then again and again. */
  function Busy(n: nat): (calls: seq<Call>)
    ensures |calls| == n
  {
    if n == 0 then []
    else
      var pid := if n < CACHE_SIZE then n else CACHE_SIZE;
      Busy(n - 1) + [Lookup(pid, StatusText(pid))]
  }

  /** What the cache then holds. */
  function BusySlots(n: nat): Slots {
    seq(CACHE_SIZE, i requires 0 <= i < CACHE_SIZE =>
      if i >= n then Slot(0, 0, 0) else Slot(i + 1, i + 1, if i == CACHE_SIZE - 1 then n - CACHE_SIZE else 0))
  }

  lemma {:induction false} BusyIsBusy(n: nat)
    ensures After(Flushed(), Busy(n)) == BusySlots(n)
  {
    if n == 0 {
      assert Flushed() == BusySlots(0);
    } else {
      var pid := if n < CACHE_SIZE then n else CACHE_SIZE;
      BusyIsBusy(n - 1);
      assert Busy(n)[..n - 1] == Busy(n - 1);
      StatusTextParses(pid);
      BusyNext(n - 1, pid);
    }
  }

  lemma BusyNext(n: nat, pid: nat)
    requires pid == if n < CACHE_SIZE then n + 1 else CACHE_SIZE
    requires Parse(StatusText(pid)) == pid
    ensures Ask(BusySlots(n), pid, StatusText(pid)).1 == BusySlots(n + 1)
  {
    hide Parse, StatusText;
    var slots, k := BusySlots(n), FindSlot(BusySlots(n), pid, 0);
    if n < CACHE_SIZE {
      assert slots[n].pid == 0;
      assert FindSlot(slots, 0, 0) == n && k == CACHE_SIZE;
    } else {
      assert slots[CACHE_SIZE - 1].pid == pid && k == CACHE_SIZE - 1;
    }
  }

  /** So the slot in use can be the one to give way: from an empty cache on, ten processes are asked for and the last
      one `hits` times more; an eleventh then drives out just that one, and the nine never used again stay. */
  lemma {:induction false} NotLeastUsed(hits: nat, pid: nat, status: seq<char>)
    requires hits < REF_MAX && pid > CACHE_SIZE && Parse(status) != 0
    ensures var slots := After(Flushed(), Busy(CACHE_SIZE + hits));
      && slots[CACHE_SIZE - 1] == Slot(CACHE_SIZE, CACHE_SIZE, hits)
      && (forall i :: 0 <= i < CACHE_SIZE - 1 ==> slots[i] == Slot(i + 1, i + 1, 0))
      && Ask(slots, pid, status).1 == slots[CACHE_SIZE - 1 := Slot(pid, Parse(status), hits)]
  {
    hide Parse, After, Busy, Ask;
    BusyIsBusy(CACHE_SIZE + hits);
    LastDrivenOut(BusySlots(CACHE_SIZE + hits), pid, status);
  }

  lemma LastDrivenOut(slots: Slots, pid: nat, status: seq<char>)
    requires forall i :: 0 <= i < CACHE_SIZE ==> slots[i].pid !in {0, pid} && slots[i].refCount < REF_MAX
    requires pid != 0 && Parse(status) != 0
    ensures Ask(slots, pid, status).1 ==
      slots[CACHE_SIZE - 1 := slots[CACHE_SIZE - 1].(pid := pid, tgid := Parse(status))]
  {
    hide Parse;
    VictimIsLast(slots);
    assert FindSlot(slots, 0, 0) == CACHE_SIZE && FindSlot(slots, pid, 0) == CACHE_SIZE;
  }

  /** With no count at its limit the last slot gives way, so the least used one does just when the last one is that. */
  lemma VictimIsLast(slots: Slots)
    requires forall i :: 0 <= i < CACHE_SIZE ==> slots[i].refCount < REF_MAX
    ensures Victim(slots, CACHE_SIZE) == CACHE_SIZE - 1
    ensures (forall i :: 0 <= i < CACHE_SIZE ==> slots[Victim(slots, CACHE_SIZE)].refCount <= slots[i].refCount) <==>
      (forall i :: 0 <= i < CACHE_SIZE ==> slots[CACHE_SIZE - 1].refCount <= slots[i].refCount)
  {
  }

  class Cache {
    const slots: array<Slot>

    ghost predicate Valid() {
      slots.Length == CACHE_SIZE
    }

    constructor ()
      ensures Valid() && fresh(slots) && slots[..] == Flushed()
    {
      slots := new Slot[CACHE_SIZE](_ => Slot(0, 0, 0));
    }

    method Get(pid: nat) returns (tgid: nat)
      requires Valid()
      modifies slots
      ensures (tgid, slots[..]) == GetFrom(old(slots[..]), pid)
    {
      tgid := 0;
      if pid != 0 {
        for i := 0 to CACHE_SIZE
          invariant slots[..] == old(slots[..]) && FindSlot(slots[..], pid, 0) == FindSlot(slots[..], pid, i)
        {
          if slots[i].pid == pid {
            slots[i] := slots[i].(refCount := slots[i].refCount + 1);
            return slots[i].tgid;
          }
        }
      }
    }

    method Put(pid: nat, tgid: nat)
      requires Valid()
      modifies slots
      ensures slots[..] == PutInto(old(slots[..]), pid, tgid)
    {
      if pid == 0 {
        return;
      }
      ghost var was: Slots := slots[..];
      var idx := 0;
      for i := 0 to CACHE_SIZE
        invariant slots[..] == was && idx == Victim(was, i)
        invariant FindSlot(was, pid, 0) == FindSlot(was, pid, i) && FindSlot(was, 0, 0) == FindSlot(was, 0, i)
      {
        if slots[i].pid == pid {
          return;
        }
        if slots[i].pid == 0 {
          slots[i] := slots[i].(pid := pid, tgid := tgid);
          return;
        }
        if REF_MAX > slots[i].refCount {
          idx := i;
        }
      }
      slots[idx] := slots[idx].(pid := pid, tgid := tgid);
    }

    /** pid2tgid_cache_flush */
    method Flush()
      requires Valid()
      modifies slots
      ensures slots[..] == Flushed()
    {
      for i := 0 to CACHE_SIZE
        invariant forall j :: 0 <= j < i ==> slots[j] == Slot(0, 0, 0)
      {
        slots[i] := Slot(0, 0, 0);
      }
    }

    /** pid2tgid; `status` is the buffer once the status file has been read into it. */
    method Pid2Tgid(pid: nat, status: array<char>, ghost stop: nat) returns (tgid: nat)
      requires Valid() && Ends(status[..], stop)
      modifies slots
      ensures (tgid, slots[..]) == Ask(old(slots[..]), pid, old(status[..]))
    {
      hide GetFrom, PutInto, Parse;
      tgid := Get(pid);
      if tgid != 0 {
        return;
      }
      tgid := ParseTgidStr(status, stop);
      if tgid != 0 {
        Put(pid, tgid);
      }
    }
  }
}
