/** The thread table of a process (proc.c, and tid2thread of wait_for_something.c). */
module Threads {
  import opened Base
  import opened Tracer
  import opened RefCounts
  import Patch

  // --- the table as a set of live threads ---

  ghost function Live(ts: seq<ThreadState>): set<nat> {
    set k | 0 <= k < |ts| && ts[k].tid != 0 :: ts[k].tid
  }

  /** reg_tid for a thread that is not in the table yet, when a slot is free. */
  function Register(ts: seq<ThreadState>, tid: nat): (ts': seq<ThreadState>)
    requires FindTid(ts, 0, 0) < |ts|
    ensures |ts'| == |ts|
  {
    var k := FindTid(ts, 0, 0);
    ts[k := ts[k].(tid := tid)]
  }

  function Deregister(ts: seq<ThreadState>, tid: nat): (ts': seq<ThreadState>)
    ensures |ts'| == |ts|
  {
    var k := FindTid(ts, tid, 0);
    if tid == 0 || k == |ts| then ts else ts[k := ts[k].(tid := 0)]
  }

  /** Registering adds one live thread and keeps the others, each in one slot. */
  lemma RegisterAdds(ts: seq<ThreadState>, tid: nat)
    requires TidsDistinct(ts) && tid != 0 && FindTid(ts, tid, 0) == |ts| && FindTid(ts, 0, 0) < |ts|
    ensures TidsDistinct(Register(ts, tid)) && Live(Register(ts, tid)) == Live(ts) + {tid}
    ensures tid !in Live(ts)
    ensures forall j :: 0 <= j < |ts| ==> Register(ts, tid)[j] == ts[j].(tid := Register(ts, tid)[j].tid)
  {
    var k := FindTid(ts, 0, 0);
    var ts' := Register(ts, tid);
    forall x | x in Live(ts) + {tid} ensures x in Live(ts') {
      if x in Live(ts) {
        var j :| 0 <= j < |ts| && ts[j].tid == x && x != 0;
        assert ts'[j].tid == x;
      } else {
        assert ts'[k].tid == x;
      }
    }
    forall x | x in Live(ts') ensures x in Live(ts) + {tid} {
      var j :| 0 <= j < |ts'| && ts'[j].tid == x && x != 0;
      assert j != k ==> ts[j].tid == x;
    }
  }

  /** Deregistering removes exactly one live thread, and does nothing for an unknown one. */
  lemma DeregisterRemoves(ts: seq<ThreadState>, tid: nat)
    requires TidsDistinct(ts)
    ensures TidsDistinct(Deregister(ts, tid)) && Live(Deregister(ts, tid)) == Live(ts) - {tid}
    ensures forall j :: 0 <= j < |ts| ==> Deregister(ts, tid)[j] == ts[j].(tid := Deregister(ts, tid)[j].tid)
  {
    var k := FindTid(ts, tid, 0);
    var ts' := Deregister(ts, tid);
    forall x | x in Live(ts) - {tid} ensures x in Live(ts') {
      var j :| 0 <= j < |ts| && ts[j].tid == x && x != 0;
      assert ts'[j].tid == x;
    }
    forall j | 0 <= j < |ts| && tid != 0 && ts[j].tid == tid ensures j == k {
      FirstIsOnly(ts, tid, j);
    }
    forall x | x in Live(ts') ensures x in Live(ts) - {tid} {
      var j :| 0 <= j < |ts'| && ts'[j].tid == x && x != 0;
      assert ts[j].tid == x;
    }
  }

  // --- finding the process from a thread ---

  /** Where the thread in slot `k` of the process structure at `proc` is. */
  function ThreadAddress(proc: int, offset: int, size: int, k: nat): int {
    proc + offset + k * size
  }

  /** get_proc: back over the slots before the thread, then to the structure's start. */
  function GetProc(thr: int, offset: int, size: int, childIdx: nat): int {
    thr - childIdx * size - offset
  }

  /** What reg_tid as written leaves: the slot filled, the child index stored in it, and the slots remembered as hot
      and returned. */
  datatype Registration =
    | Known(slot: nat)
    | NoSpace
    | Entered(slot: nat, childIdx: nat, hot: nat, returned: nat)

  /** reg_tid as written: what follows the loop uses its counter, which has run out; child_idx is an unsigned char. */
  method RegTidAsWritten(ts: seq<ThreadState>, tid: nat) returns (r: Registration)
    requires |ts| == MAX_THREADS_TRACED && tid != 0
    ensures if FindTid(ts, tid, 0) < |ts| then r == Known(FindTid(ts, tid, 0))
      else if FindTid(ts, 0, 0) == |ts| then r == NoSpace
      else r.Entered? && r.slot == FindTid(ts, 0, 0) && r.returned == r.hot == |ts| && r.childIdx == |ts| % 256
  {
    var i := 0;
    var idxAva := -1;
    while i < MAX_THREADS_TRACED
      invariant 0 <= i <= MAX_THREADS_TRACED && FindTid(ts, tid, 0) == FindTid(ts, tid, i)
      invariant idxAva == -1 ==> FindTid(ts, 0, 0) == FindTid(ts, 0, i)
      invariant idxAva != -1 ==> 0 <= idxAva < i && idxAva == FindTid(ts, 0, 0)
    {
      if ts[i].tid == 0 && idxAva == -1 {
        idxAva := i;
      } else if ts[i].tid == tid {
        return Known(i);
      }
      i := i + 1;
    }
    if idxAva == -1 {
      return NoSpace;
    }
    return Entered(idxAva, i % 256, i, i);
  }

  /** So a new thread's slot is never the one returned or remembered as hot, no slot of the table is, and get_proc
      finds the process exactly for the thread in slot 0. */
  lemma RegisterAsWrittenMisses(ts: seq<ThreadState>, r: Registration, proc: int, offset: int, size: int)
    requires |ts| == MAX_THREADS_TRACED && size > 0
    requires r.Entered? && r.slot < |ts| && r.returned == r.hot == |ts| && r.childIdx == |ts| % 256
    ensures r.returned != r.slot && r.hot != r.slot && r.returned >= |ts|
    ensures GetProc(ThreadAddress(proc, offset, size, r.slot), offset, size, r.childIdx) == proc <==> r.slot == 0
  {
    assert r.slot > 0 ==> r.slot * size >= size;
  }

  // --- the structures ---

  class Thread {
    var tid: nat
    var depth: nat
    const callstack: array<Frame>
    var beingEnabled: Patch.Breakpoint?
    var childIdx: nat

    constructor ()
      ensures Shows(FreeThread) && fresh(callstack) && beingEnabled == null
    {
      tid, depth, beingEnabled, childIdx := 0, 0, null, 0;
      callstack := new Frame[MAX_CALLDEPTH](_ => SyscallFrame(0, 0));
    }

    ghost predicate Shows(t: ThreadState)
      reads this, callstack
    {
      && tid == t.tid
      && callstack.Length == MAX_CALLDEPTH && depth < MAX_CALLDEPTH
      && callstack[..depth] == t.callstack
      && t.beingEnabled == if beingEnabled == null then None else Some(beingEnabled.addr)
    }
  }

  class ThreadTable {
    const threads: seq<Thread>
    var hotTidIdx: int
    ghost const objects: set<object>

    ghost predicate Owns() {
      && |threads| == MAX_THREADS_TRACED && this !in objects
      && (forall i :: 0 <= i < |threads| ==> threads[i] in objects && threads[i].callstack in objects)
      && (forall i, j :: 0 <= i < j < |threads| ==>
            threads[i] != threads[j] && threads[i].callstack != threads[j].callstack)
    }

    ghost predicate Shows(ts: seq<ThreadState>)
      reads this, objects
    {
      && Owns() && |ts| == |threads|
      && (forall i :: 0 <= i < |threads| ==> threads[i].Shows(ts[i]))
      && (forall i :: 0 <= i < |threads| && threads[i].tid != 0 ==> threads[i].childIdx == i)
      && -1 <= hotTidIdx < MAX_THREADS_TRACED
    }

    constructor ()
      ensures Shows(seq(MAX_THREADS_TRACED, _ => FreeThread)) && Owns() && fresh(objects)
      ensures forall i :: 0 <= i < |threads| ==> threads[i].beingEnabled == null
    {
      var ts: seq<Thread> := [];
      ghost var made: set<object> := {};
      while |ts| < MAX_THREADS_TRACED
        invariant |ts| <= MAX_THREADS_TRACED && fresh(made)
        invariant forall i :: 0 <= i < |ts| ==> ts[i].Shows(FreeThread) && ts[i].beingEnabled == null
        invariant forall i :: 0 <= i < |ts| ==> ts[i] in made && ts[i].callstack in made
        invariant forall i, j :: 0 <= i < j < |ts| ==> ts[i] != ts[j] && ts[i].callstack != ts[j].callstack
        decreases MAX_THREADS_TRACED - |ts|
      {
        var t := new Thread();
        ts := ts + [t];
        made := made + {t, t.callstack};
      }
      threads, objects, hotTidIdx := ts, made, 0;
    }

    /** tid2thread: the hot slot first, then a scan. The hot slot never changes the answer. */
    method Tid2Thread(tid: nat, ghost ts: seq<ThreadState>) returns (k: nat)
      requires Shows(ts) && TidsDistinct(ts) && tid != 0
      ensures k == FindTid(ts, tid, 0)
    {
      if hotTidIdx != -1 && threads[hotTidIdx].tid == tid {
        k := hotTidIdx;
        ghost var first := FindTid(ts, tid, 0);
        assert threads[k].Shows(ts[k]);
        assert first <= k;
      } else {
        k := 0;
        while k < MAX_THREADS_TRACED
          invariant 0 <= k <= MAX_THREADS_TRACED && FindTid(ts, tid, 0) == FindTid(ts, tid, k)
        {
          assert threads[k].Shows(ts[k]);
          if threads[k].tid == tid {
            return;
          }
          k := k + 1;
        }
      }
    }

    /** reg_tid, with the chosen slot recorded, remembered and returned; None stands for the exit when no slot is
        free. A thread already there is found again. */
    method RegTid(tid: nat, ghost ts: seq<ThreadState>) returns (r: Option<nat>)
      requires Shows(ts) && tid != 0
      modifies this, threads
      ensures if FindTid(ts, tid, 0) < |ts| then r == Some(FindTid(ts, tid, 0)) && Shows(ts)
        else if FindTid(ts, 0, 0) == |ts| then r == None && Shows(ts)
        else r == Some(FindTid(ts, 0, 0)) && Shows(Register(ts, tid)) && hotTidIdx == r.value
      ensures forall i :: 0 <= i < |threads| ==> threads[i].beingEnabled == old(threads[i].beingEnabled)
    {
      var idxAva := -1;
      var i := 0;
      while i < MAX_THREADS_TRACED
        invariant 0 <= i <= MAX_THREADS_TRACED && FindTid(ts, tid, 0) == FindTid(ts, tid, i)
        invariant idxAva == -1 ==> FindTid(ts, 0, 0) == FindTid(ts, 0, i)
        invariant idxAva != -1 ==> 0 <= idxAva < i && idxAva == FindTid(ts, 0, 0)
      {
        assert threads[i].Shows(ts[i]);
        if threads[i].tid == 0 && idxAva == -1 {
          idxAva := i;
        } else if threads[i].tid == tid {
          return Some(i);
        }
        i := i + 1;
      }
      if idxAva == -1 {
        return None;
      }
      Claim(idxAva, tid, ts);
      return Some(idxAva);
    }

    /** Puts a thread in a slot. */
    method Claim(k: nat, tid: nat, ghost ts: seq<ThreadState>)
      requires Shows(ts) && k < |threads|
      modifies this, threads[k]
      ensures Shows(ts[k := ts[k].(tid := tid)]) && hotTidIdx == k
      ensures threads[k].beingEnabled == old(threads[k].beingEnabled)
    {
      assert threads[k].Shows(ts[k]);
      threads[k].tid := tid;
      threads[k].childIdx := k % 256;
      hotTidIdx := k;
    }

    method DeregTid(tid: nat, ghost ts: seq<ThreadState>)
      requires Shows(ts)
      modifies this, threads
      ensures Shows(Deregister(ts, tid))
    {
      if tid == 0 {
        return;
      }
      var i := 0;
      while i < MAX_THREADS_TRACED && threads[i].tid != tid
        invariant 0 <= i <= MAX_THREADS_TRACED && FindTid(ts, tid, 0) == FindTid(ts, tid, i)
      {
        assert threads[i].Shows(ts[i]);
        i := i + 1;
      }
      if i == MAX_THREADS_TRACED {
        return;
      }
      assert threads[i].Shows(ts[i]);
      threads[i].tid := 0;
      if hotTidIdx == i {
        hotTidIdx := -1;
      }
    }

    /** For a registered thread, get_proc is the process whose table holds it. */
    lemma GetProcInverts(ts: seq<ThreadState>, k: nat, proc: int, offset: int, size: int)
      requires Shows(ts) && k < |threads| && threads[k].tid != 0
      ensures GetProc(ThreadAddress(proc, offset, size, k), offset, size, threads[k].childIdx) == proc
    {
    }

    method Push(k: nat, f: Frame, ghost ts: seq<ThreadState>)
      requires Shows(ts) && k < |threads| && !Full(ts[k])
      modifies threads[k], threads[k].callstack
      ensures Shows(ts[k := ts[k].(callstack := ts[k].callstack + [f])])
      ensures threads[k].beingEnabled == old(threads[k].beingEnabled)
    {
      var thr := threads[k];
      assert thr.Shows(ts[k]);
      thr.callstack[thr.depth] := f;
      thr.depth := thr.depth + 1;
    }

    method Drop(k: nat, ghost ts: seq<ThreadState>)
      requires Shows(ts) && k < |threads| && ts[k].callstack != []
      modifies threads[k]
      ensures Shows(ts[k := ts[k].(callstack := ts[k].callstack[..|ts[k].callstack| - 1])])
      ensures threads[k].beingEnabled == old(threads[k].beingEnabled)
    {
      var thr := threads[k];
      assert thr.Shows(ts[k]);
      thr.depth := thr.depth - 1;
      assert thr.callstack[..thr.depth] == ts[k].callstack[..|ts[k].callstack| - 1];
    }

    method SetStep(k: nat, sbp: Patch.Breakpoint?, ghost ts: seq<ThreadState>)
      requires Shows(ts) && k < |threads|
      modifies threads[k]
      ensures Shows(ts[k := ts[k].(beingEnabled := if sbp == null then None else Some(sbp.addr))])
      ensures threads[k].beingEnabled == sbp
    {
      assert threads[k].Shows(ts[k]);
      threads[k].beingEnabled := sbp;
    }
  }
}
