/** Return tracing is complete: the tracee's live traced calls always embed in the shadow stack. */
module Completeness {
  import opened Base
  import opened Memory
  import opened Tracer
  import opened RefCounts
  import opened TextSafety

  // --- subsequences, matched greedily from the end ---

  predicate Embeds(xs: seq<Addr>, ys: seq<Addr>)
    decreases |ys|
  {
    xs == [] ||
    (ys != [] &&
     if xs[|xs| - 1] == ys[|ys| - 1] then Embeds(xs[..|xs| - 1], ys[..|ys| - 1])
     else Embeds(xs, ys[..|ys| - 1]))
  }

  /** `at` are increasing positions of the elements of `xs` in `ys`. */
  ghost predicate Positions(at: seq<nat>, xs: seq<Addr>, ys: seq<Addr>) {
    && |at| == |xs|
    && (forall i :: 0 <= i < |at| ==> at[i] < |ys| && ys[at[i]] == xs[i])
    && (forall i, j :: 0 <= i < j < |at| ==> at[i] < at[j])
  }

  /** Greedy matching succeeds exactly when `xs` is a subsequence of `ys`. */
  lemma {:induction false} EmbedsIsSubsequence(xs: seq<Addr>, ys: seq<Addr>)
    ensures Embeds(xs, ys) <==> exists at :: Positions(at, xs, ys)
    decreases |ys|
  {
    if xs == [] {
      assert Positions([], xs, ys);
    } else if ys == [] {
      forall at: seq<nat> ensures !Positions(at, xs, ys) {
        assert |at| > 0 ==> at[0] >= |ys|;
      }
    } else if xs[|xs| - 1] == ys[|ys| - 1] {
      EmbedsIsSubsequence(xs[..|xs| - 1], ys[..|ys| - 1]);
      if Embeds(xs, ys) {
        var at: seq<nat> :| Positions(at, xs[..|xs| - 1], ys[..|ys| - 1]);
        var last: nat := |ys| - 1;
        assert Positions(at + [last], xs, ys);
      }
      forall at: seq<nat> | Positions(at, xs, ys) ensures Embeds(xs, ys) {
        assert Positions(at[..|at| - 1], xs[..|xs| - 1], ys[..|ys| - 1]);
      }
    } else {
      EmbedsIsSubsequence(xs, ys[..|ys| - 1]);
      if Embeds(xs, ys) {
        var at: seq<nat> :| Positions(at, xs, ys[..|ys| - 1]);
        assert Positions(at, xs, ys);
      }
      forall at: seq<nat> | Positions(at, xs, ys) ensures Embeds(xs, ys) {
        assert at[|at| - 1] != |ys| - 1;
        assert Positions(at, xs, ys[..|ys| - 1]);
      }
    }
  }

  lemma {:induction false} EmbedsShorter(xs: seq<Addr>, ys: seq<Addr>)
    requires xs != [] && Embeds(xs, ys)
    ensures Embeds(xs[..|xs| - 1], ys)
    decreases |ys|, 0
  {
    var init := ys[..|ys| - 1];
    if xs[|xs| - 1] == ys[|ys| - 1] {
      if |xs| > 1 {
        EmbedsLonger(xs[..|xs| - 1], init, ys[|ys| - 1]);
        assert init + [ys[|ys| - 1]] == ys;
      }
    } else {
      EmbedsShorter(xs, init);
      EmbedsLonger(xs[..|xs| - 1], init, ys[|ys| - 1]);
      assert init + [ys[|ys| - 1]] == ys;
    }
  }

  lemma {:induction false} EmbedsLonger(xs: seq<Addr>, ys: seq<Addr>, y: Addr)
    requires Embeds(xs, ys)
    ensures Embeds(xs, ys + [y])
    decreases |ys|, 1
  {
    assert (ys + [y])[..|ys|] == ys;
    if xs != [] && xs[|xs| - 1] == y {
      EmbedsShorter(xs, ys);
    }
  }

  lemma {:induction false} EmbedsPrefix(xs: seq<Addr>, ys: seq<Addr>, n: nat)
    requires Embeds(xs, ys) && n <= |xs|
    ensures Embeds(xs[..n], ys)
    decreases |xs|
  {
    if n < |xs| {
      EmbedsShorter(xs, ys);
      EmbedsPrefix(xs[..|xs| - 1], ys, n);
      assert xs[..|xs| - 1][..n] == xs[..n];
    } else {
      assert xs[..n] == xs;
    }
  }

  lemma EmbedsMember(xs: seq<Addr>, ys: seq<Addr>, i: nat)
    requires Embeds(xs, ys) && i < |xs|
    ensures xs[i] in ys
    decreases |ys|
  {
    if xs[|xs| - 1] == ys[|ys| - 1] {
      if i < |xs| - 1 {
        EmbedsMember(xs[..|xs| - 1], ys[..|ys| - 1], i);
      }
    } else {
      EmbedsMember(xs, ys[..|ys| - 1], i);
    }
  }

  // --- the shadow stack as return addresses ---

  function Rets(stack: seq<Frame>): (rets: seq<Addr>)
    ensures |rets| == |stack|
    ensures forall i :: 0 <= i < |stack| ==> rets[i] == stack[i].ReturnAddr()
  {
    seq(|stack|, i requires 0 <= i < |stack| => stack[i].ReturnAddr())
  }

  /** The frame the tracer takes for the innermost live call leaves the other live calls below it. */
  lemma {:induction false} ReturnFindsFrame(xs: seq<Addr>, stack: seq<Frame>, n: nat)
    requires xs != [] && n <= |stack| && Embeds(xs, Rets(stack[..n]))
    ensures var i := FindFrame(stack, xs[|xs| - 1], n);
      i >= 0 && Embeds(xs[..|xs| - 1], Rets(stack[..i]))
    decreases n
  {
    var ys := Rets(stack[..n]);
    assert ys[..n - 1] == Rets(stack[..n - 1]);
    if stack[n - 1].ReturnAddr() != xs[|xs| - 1] {
      ReturnFindsFrame(xs, stack, n - 1);
    }
  }

  // --- the tracee ---

  /** A call that has not returned: where it returns to and, if the tracer took it for a call, its serial number. */
  datatype LiveCall = LiveCall(ret: Addr, call: Option<nat>)

  /** The tracer's state and, for each thread, its live traced calls, outermost first. */
  datatype World = World(s: State, live: map<nat, seq<LiveCall>>)

  /** What a thread does: it calls a traced function, returns from its innermost traced call, leaves several calls
      at once without returning (longjmp), or stops for any other reason, traps it runs into otherwise included. */
  datatype Action =
    | Call(tid: nat, sym: Symbol, ret: Addr)
    | Return(tid: nat)
    | Unwind(tid: nat, keep: nat)
    | OtherStop(tid: nat, stop: Stop)

  function CallsOf(w: World, tid: nat): seq<LiveCall> {
    if tid in w.live then w.live[tid] else []
  }

  function Targets(calls: seq<LiveCall>): (rets: seq<Addr>)
    ensures |rets| == |calls|
    ensures forall i :: 0 <= i < |calls| ==> rets[i] == calls[i].ret
  {
    seq(|calls|, i requires 0 <= i < |calls| => calls[i].ret)
  }

  /** The return addresses of the live calls. */
  function LiveOf(w: World, tid: nat): seq<Addr> {
    Targets(CallsOf(w, tid))
  }

  /** The thread's slot, or what it is before it has one. */
  function ThreadOf(s: State, tid: nat): ThreadState {
    var k := FindTid(s.threads, tid, 0);
    if k < |s.threads| then s.threads[k] else ThreadState(tid, [], None)
  }

  function StackOf(s: State, tid: nat): seq<Frame> {
    ThreadOf(s, tid).callstack
  }

  function RetsOf(s: State, tid: nat): seq<Addr> {
    Rets(StackOf(s, tid))
  }

  predicate IsEntry(s: State, a: Addr) {
    exists j :: 0 <= j < |s.symbols| && s.symbols[j].enterAddr == a
  }

  /** What holds in every world: no address in question is zero. */
  ghost predicate Sane(w: World) {
    && Inv(w.s) && !IsEntry(w.s, 0)
    && forall t, i :: t in w.live && 0 <= i < |w.live[t]| ==> w.live[t][i].ret != 0
  }

  ghost predicate Covers(s: State, rets: seq<Addr>, live: seq<Addr>) {
    Embeds(live, rets) && forall i :: 0 <= i < |rets| ==> !IsEntry(s, rets[i])
  }

  /** Every thread's live calls are in its shadow stack. */
  ghost predicate Complete(w: World) {
    Sane(w) && forall t: nat :: t != 0 ==> Covers(w.s, RetsOf(w.s, t), LiveOf(w, t))
  }

  function Trap(pc: Addr, ret: Addr): Stop {
    Stopped(SIGTRAP, -1, pc + 1, ret, false)
  }

  /** Entry addresses are not return addresses, and there must be a call to return from. */
  ghost predicate Possible(w: World, action: Action) {
    && action.tid != 0
    && match action
       case Call(_, sym, ret) => sym in w.s.symbols && ret != 0 && !IsEntry(w.s, ret)
       case Return(tid) => LiveOf(w, tid) != []
       case Unwind(tid, keep) => keep <= |LiveOf(w, tid)|
       case OtherStop(tid, stop) => RealStop(tid, stop)
  }

  /** The stop the tracer sees: a call or a return is one only where the text holds the trap. */
  ghost function StopOf(w: World, action: Action): Option<Stop>
    requires Possible(w, action)
  {
    match action
    case Call(_, sym, ret) => if w.s.text[sym.enterAddr] == TRAP then Some(Trap(sym.enterAddr, ret)) else None
    case Return(tid) =>
      var r := LiveOf(w, tid)[|LiveOf(w, tid)| - 1];
      if w.s.text[r] == TRAP then Some(Trap(r, 0)) else None
    case Unwind(_, _) => None
    case OtherStop(_, stop) => Some(stop)
  }

  ghost function LiveAfter(w: World, action: Action): seq<Addr>
    requires Possible(w, action)
  {
    var live := LiveOf(w, action.tid);
    match action
    case Call(_, _, ret) => live + [ret]
    case Return(_) => live[..|live| - 1]
    case Unwind(_, keep) => live[..keep]
    case OtherStop(_, _) => live
  }

  /** A call gets the next serial number when its trap is heard and no frame returns to its entry. */
  ghost function CallNumber(s: State, tid: nat, sym: Symbol): Option<nat> {
    var stack := StackOf(s, tid);
    if Heard(s, tid, sym.enterAddr) && FindFrame(stack, sym.enterAddr, |stack|) < 0 then Some(s.calls) else None
  }

  ghost function CallsAfter(w: World, action: Action): (calls: seq<LiveCall>)
    requires Possible(w, action)
    ensures Targets(calls) == LiveAfter(w, action)
  {
    var calls := CallsOf(w, action.tid);
    match action
    case Call(tid, sym, ret) => calls + [LiveCall(ret, CallNumber(w.s, tid, sym))]
    case Return(_) => calls[..|calls| - 1]
    case Unwind(_, keep) => calls[..keep]
    case OtherStop(_, _) => calls
  }

  /** The next world, or None when the session has ended. */
  ghost function Act(w: World, o: Options, action: Action): Option<World>
    requires Possible(w, action)
  {
    var live := w.live[action.tid := CallsAfter(w, action)];
    match StopOf(w, action)
    case None => Some(World(w.s, live))
    case Some(stop) =>
      match Step(w.s, o, action.tid, stop)
      case Ok(Running(s')) => Some(World(s', live))
      case _ => None
  }

  // --- exactly when the tracer keeps track ---

  predicate SteppingBy(s: State, tid: nat) {
    ThreadOf(s, tid).beingEnabled.Some?
  }

  /** A thread that runs into the trap at `a` is taken to have called or returned, not to have ended a step. */
  ghost predicate Heard(s: State, tid: nat, a: Addr) {
    s.text[a] == TRAP && s.mode != -1 && !SteppingBy(s, tid)
  }

  /** The shadow stack after a trap at `addr` outside a step; a call gets the number `call`. */
  function TrapStack(symbols: seq<Symbol>, stack: seq<Frame>, addr: Addr, ret: Addr, call: nat): seq<Frame> {
    var i, j := FindFrame(stack, addr, |stack|), FindSymbol(symbols, addr, 0);
    if i >= 0 then stack[..i]
    else if j < |symbols| && |stack| < MAX_CALLDEPTH - 1 then stack + [FuncFrame(symbols[j], ret, call)]
    else stack
  }

  /** The exact condition: a call is heard and there is room for it, or it makes no difference; and a trap that is
      neither a call nor a return does not cut off a live call. */
  ghost predicate Follows(w: World, action: Action) {
    var th, live := ThreadOf(w.s, action.tid), LiveOf(w, action.tid);
    match action
    case Call(tid, sym, ret) =>
      || (Heard(w.s, tid, sym.enterAddr) && |th.callstack| < MAX_CALLDEPTH - 1)
      || Embeds(live + [ret], Rets(th.callstack))
    case Return(_) => true
    case Unwind(_, _) => true
    case OtherStop(tid, stop) =>
      var e := Classify(th, stop);
      w.s.mode == -1 || SteppingBy(w.s, tid) || !e.BreakpointHit? ||
      (var i := FindFrame(th.callstack, e.addr, |th.callstack|);
       if i >= 0 then Embeds(live, Rets(th.callstack[..i]))
       else IsEntry(w.s, e.addr) && |th.callstack| < MAX_CALLDEPTH - 1 ==> !IsEntry(w.s, e.ret))
  }

  // --- what a stop does to the stacks ---

  /** `s'` differs from `s` in no other thread's stack than that in slot `k`. */
  ghost predicate OnlySlot(s: State, s': State, k: nat) {
    && Inv(s') && s'.symbols == s.symbols && |s'.threads| == |s.threads| && k < |s.threads|
    && s'.threads[k].tid == s.threads[k].tid
    && forall j :: 0 <= j < |s.threads| && j != k ==>
         s'.threads[j].tid == s.threads[j].tid && s'.threads[j].callstack == s.threads[j].callstack
  }

  lemma EntryFound(s: State, a: Addr)
    ensures FindSymbol(s.symbols, a, 0) < |s.symbols| <==> IsEntry(s, a)
  {
  }

  /** A trap outside a step cuts the stack at the highest frame returning there, or pushes one frame. */
  lemma TrapMoves(s: State, o: Options, k: nat, addr: Addr, ret: Addr)
    requires Inv(s) && k < |s.threads| && s.threads[k].tid != 0 && s.threads[k].beingEnabled == None && addr != 0
    ensures var r := HandleBreakpoint(s, o, k, addr, ret);
      && r.Ok? && OnlySlot(s, r.value, k)
      && r.value.threads[k].callstack == TrapStack(s.symbols, s.threads[k].callstack, addr, ret, s.calls)
  {
    hide Inv, Called, Returned;
    var i := FindFrame(s.threads[k].callstack, addr, |s.threads[k].callstack|);
    var j := FindSymbol(s.symbols, addr, 0);
    BreakpointKeeps(s, o, k, addr, ret);
    if i >= 0 {
      ReturnedKeeps(s, o, k, i);
    } else if j < |s.symbols| {
      CalledKeeps(s, o, k, s.symbols[j], ret);
      DepthBounded(s, k);
    }
  }

  lemma DepthBounded(s: State, k: nat)
    requires Inv(s) && k < |s.threads|
    ensures |s.threads[k].callstack| <= MAX_CALLDEPTH - 1 == 99
  {
    assert ThreadOk(s.threads[k]);
  }

  /** Other stops leave the stack alone, but for a system call's frame on top. */
  predicate SameCalls(before: seq<Frame>, after: seq<Frame>) {
    after == before || SyscallOnTop(before, after) || SyscallOnTop(after, before)
  }

  predicate SyscallOnTop(stack: seq<Frame>, stack': seq<Frame>) {
    |stack'| == |stack| + 1 && stack'[..|stack|] == stack && stack'[|stack|].SyscallFrame?
  }

  lemma SyscallMoves(s: State, o: Options, k: nat, sysnum: int)
    requires Inv(s) && k < |s.threads| && s.threads[k].tid != 0 && sysnum >= 0
    ensures var s' := HandleSyscall(s, o, k, sysnum);
      OnlySlot(s, s', k) && SameCalls(s.threads[k].callstack, s'.threads[k].callstack)
  {
    hide Inv;
    SyscallKeeps(s, o, k, sysnum);
  }

  lemma SysretMoves(s: State, o: Options, k: nat, stop: Stop)
    requires Inv(s) && k < |s.threads| && s.threads[k].tid != 0 && Classify(s.threads[k], stop).Sysret?
    ensures HandleSysret(s, o, k).Ok?
    ensures var s' := HandleSysret(s, o, k).value;
      OnlySlot(s, s', k) && SameCalls(s.threads[k].callstack, s'.threads[k].callstack)
  {
    hide Inv;
    SysretKeeps(s, o, k);
    SysretPopsItsCall(s, o, k, stop);
    PopKeeps(s, k);
  }

  lemma {:induction false} QuietMoves(s: State, o: Options, k: nat, stop: Stop)
    requires Inv(s) && k < |s.threads| && s.threads[k].tid != 0 && RealStop(s.threads[k].tid, stop)
    requires Classify(s.threads[k], stop).BreakpointHit? ==> s.threads[k].beingEnabled.Some?
    ensures match Handle(s, o, k, Classify(s.threads[k], stop))
      case Ok(Running(s')) =>
        OnlySlot(s, s', k) && SameCalls(s.threads[k].callstack, s'.threads[k].callstack)
      case _ => true
  {
    match Classify(s.threads[k], stop)
    case Syscall(sysnum) => SyscallMoves(s, o, k, sysnum);
    case Sysret(sysnum) => SysretMoves(s, o, k, stop);
    case ExitEvent =>
    case Unknown =>
    case Signal(signum, exiting) => SameCounts(s, WithPrinter(s, PrintLine(s.printer, o)));
    case BreakpointHit(addr, ret) => ReinsertKeeps(s, k);
  }

  // --- what a stop does to a thread ---

  /** `s'` differs from `s` in no other thread's stack than `tid`'s, which becomes `stack`. */
  ghost predicate OnlyThread(s: State, s': State, tid: nat, stack: seq<Frame>) {
    && Inv(s') && s'.symbols == s.symbols && StackOf(s', tid) == stack
    && forall t: nat :: t != 0 && t != tid ==> StackOf(s', t) == StackOf(s, t)
  }

  lemma SlotOf(s: State, tid: nat)
    requires Inv(s) && tid != 0 && Locate(s, tid).Some?
    ensures var (s1, k) := Locate(s, tid).value;
      && Inv(s1) && k < |s1.threads| && s1.threads[k] == ThreadOf(s, tid) && s1.threads[k].tid == tid
      && s1 == s.(threads := s1.threads) && |s1.threads| == |s.threads|
      && (s.threads[k].tid == tid || s.threads[k] == FreeThread)
      && (forall j :: 0 <= j < |s.threads| && j != k ==> s1.threads[j] == s.threads[j])
  {
    LocateKeeps(s, tid);
    assert ThreadOk(s.threads[Locate(s, tid).value.1]);
  }

  lemma OnlyThisThread(s: State, s': State, tid: nat)
    requires Inv(s) && tid != 0 && Locate(s, tid).Some?
    requires var (s1, k) := Locate(s, tid).value; OnlySlot(s1, s', k)
    ensures OnlyThread(s, s', tid, s'.threads[Locate(s, tid).value.1].callstack)
  {
    SlotOf(s, tid);
    var (s1, k) := Locate(s, tid).value;
    Distinct(s);
    Distinct(s');
    FirstIsOnly(s'.threads, tid, k);
    forall t: nat | t != 0 && t != tid ensures StackOf(s', t) == StackOf(s, t) {
      var f := FindTid(s.threads, t, 0);
      if f < |s.threads| {
        FirstIsOnly(s'.threads, t, f);
      } else {
        assert FindTid(s'.threads, t, 0) == |s'.threads|;
      }
    }
  }

  lemma Distinct(s: State)
    requires Inv(s)
    ensures TidsDistinct(s.threads)
  {
  }

  /** A trap outside a system call is not taken for a system call stop. */
  lemma TrapClassified(s: State, tid: nat, pc: Addr, ret: Addr)
    requires Inv(s)
    ensures Classify(ThreadOf(s, tid), Trap(pc, ret)) == BreakpointHit(pc, ret)
  {
    var k := FindTid(s.threads, tid, 0);
    if k < |s.threads| && |s.threads[k].callstack| > 0 {
      assert ThreadOk(s.threads[k]);
      assert FrameOk(s.threads[k].callstack[|s.threads[k].callstack| - 1]);
    }
  }

  /** A trap, heard: the stack after it. */
  lemma HeardTrap(s: State, o: Options, tid: nat, stop: Stop)
    requires Inv(s) && RealStop(tid, stop) && s.mode != -1 && !SteppingBy(s, tid)
    requires Classify(ThreadOf(s, tid), stop).BreakpointHit?
    ensures Step(s, o, tid, stop).Ok?
    ensures var n, e := Step(s, o, tid, stop).value, Classify(ThreadOf(s, tid), stop);
      n.Running? ==> OnlyThread(s, n.s, tid, TrapStack(s.symbols, StackOf(s, tid), e.addr, e.ret, s.calls))
  {
    hide Inv, HandleBreakpoint, TrapStack, OnlySlot, OnlyThread;
    if Locate(s, tid).Some? {
      SlotOf(s, tid);
      var (s1, k) := Locate(s, tid).value;
      var e := Classify(ThreadOf(s, tid), stop);
      TrapMoves(s1, o, k, e.addr, e.ret);
      OnlyThisThread(s, Step(s, o, tid, stop).value.s, tid);
    }
  }

  lemma FirstStopMoves(s: State, k: nat)
    requires Inv(s) && k < |s.threads|
    ensures OnlySlot(s, EnableAll(s), k)
  {
    SameCounts(s, EnableAll(s));
  }

  /** Any other stop, the one that ends a step and the session's first included. */
  lemma OtherwiseSame(s: State, o: Options, tid: nat, stop: Stop)
    requires Inv(s) && RealStop(tid, stop)
    requires s.mode == -1 || SteppingBy(s, tid) || !Classify(ThreadOf(s, tid), stop).BreakpointHit?
    ensures Step(s, o, tid, stop).Ok?
    ensures var n := Step(s, o, tid, stop).value;
      n.Running? ==> OnlyThread(s, n.s, tid, StackOf(n.s, tid)) && SameCalls(StackOf(s, tid), StackOf(n.s, tid))
  {
    hide Inv, Handle;
    StepKeeps(s, o, tid, stop);
    if Locate(s, tid).Some? && Step(s, o, tid, stop).value.Running? {
      SlotOf(s, tid);
      var (s1, k) := Locate(s, tid).value;
      if s1.mode == -1 {
        FirstStopMoves(s1, k);
      } else {
        QuietMoves(s1, o, k, stop);
      }
      OnlyThisThread(s, Step(s, o, tid, stop).value.s, tid);
    }
  }

  // --- one action ---

  lemma PushedCovers(s: State, stack: seq<Frame>, f: Frame, live: seq<Addr>)
    requires Covers(s, Rets(stack), live) && !IsEntry(s, f.ReturnAddr())
    ensures Covers(s, Rets(stack + [f]), live + [f.ReturnAddr()])
  {
    var y := f.ReturnAddr();
    assert Rets(stack + [f]) == Rets(stack) + [y];
    assert (live + [y])[..|live|] == live && (Rets(stack) + [y])[..|stack|] == Rets(stack);
  }

  /** The zeros that stand for system calls neither help nor hinder. */
  lemma SameCallsCover(s: State, before: seq<Frame>, after: seq<Frame>, live: seq<Addr>)
    requires SameCalls(before, after) && !IsEntry(s, 0) && forall i :: 0 <= i < |live| ==> live[i] != 0
    ensures Covers(s, Rets(before), live) <==> Covers(s, Rets(after), live)
  {
    if SyscallOnTop(before, after) {
      ZeroCovers(s, Rets(before), live);
      assert Rets(after) == Rets(before) + [0];
    } else if SyscallOnTop(after, before) {
      ZeroCovers(s, Rets(after), live);
      assert Rets(before) == Rets(after) + [0];
    }
  }

  lemma {:induction false} ZeroCovers(s: State, rets: seq<Addr>, live: seq<Addr>)
    requires !IsEntry(s, 0) && forall i :: 0 <= i < |live| ==> live[i] != 0
    ensures Covers(s, rets + [0], live) <==> Covers(s, rets, live)
  {
    assert (rets + [0])[..|rets|] == rets && (rets + [0])[|rets|] == 0;
    assert forall i :: 0 <= i < |rets| ==> (rets + [0])[i] == rets[i];
  }

  lemma LiveNonzero(w: World, action: Action)
    requires Sane(w) && Possible(w, action)
    ensures forall i :: 0 <= i < |LiveAfter(w, action)| ==> LiveAfter(w, action)[i] != 0
    ensures forall i :: 0 <= i < |LiveOf(w, action.tid)| ==> LiveOf(w, action.tid)[i] != 0
  {
  }

  lemma StopIsReal(w: World, action: Action)
    requires Sane(w) && Possible(w, action) && StopOf(w, action).Some?
    ensures RealStop(action.tid, StopOf(w, action).value)
  {
    LiveNonzero(w, action);
    if action.Call? {
      var j :| 0 <= j < |w.s.symbols| && w.s.symbols[j] == action.sym;
      assert IsEntry(w.s, action.sym.enterAddr);
    }
  }

  /** Only the acting thread's stack and live calls change. */
  lemma {:induction false} ActMoves(w: World, o: Options, action: Action)
    requires Sane(w) && Possible(w, action) && Act(w, o, action).Some?
    ensures var w' := Act(w, o, action).value;
      && OnlyThread(w.s, w'.s, action.tid, StackOf(w'.s, action.tid))
      && w'.live == w.live[action.tid := CallsAfter(w, action)]
  {
    hide OnlyThread, TrapStack, Step, CallsAfter, LiveAfter;
    match StopOf(w, action)
    case None => NothingMoves(w.s, action.tid);
    case Some(stop) =>
      StopIsReal(w, action);
      if w.s.mode == -1 || SteppingBy(w.s, action.tid) || !Classify(ThreadOf(w.s, action.tid), stop).BreakpointHit? {
        OtherwiseSame(w.s, o, action.tid, stop);
      } else {
        HeardTrap(w.s, o, action.tid, stop);
        OnlyItsStack(w.s, Act(w, o, action).value.s, action.tid);
      }
  }

  lemma NothingMoves(s: State, tid: nat)
    requires Inv(s)
    ensures OnlyThread(s, s, tid, StackOf(s, tid))
  {
  }

  lemma OnlyItsStack(s: State, s': State, tid: nat)
    requires exists stack :: OnlyThread(s, s', tid, stack)
    ensures OnlyThread(s, s', tid, StackOf(s', tid))
  {
  }

  lemma ActKeepsSane(w: World, o: Options, action: Action)
    requires Sane(w) && Possible(w, action) && Act(w, o, action).Some?
    ensures Sane(Act(w, o, action).value)
  {
    ActMoves(w, o, action);
    LiveNonzero(w, action);
  }

  /** With every other thread as it was, all depends on the acting one. */
  lemma Settles(w: World, w': World, tid: nat, calls: seq<LiveCall>)
    requires Complete(w) && Sane(w') && tid != 0 && w'.live == w.live[tid := calls]
    requires OnlyThread(w.s, w'.s, tid, StackOf(w'.s, tid))
    ensures Complete(w') <==> Covers(w.s, RetsOf(w'.s, tid), Targets(calls))
  {
    hide Sane, Inv;
    assert LiveOf(w', tid) == Targets(calls);
    forall t: nat | t != 0 && t != tid ensures Covers(w'.s, RetsOf(w'.s, t), LiveOf(w', t)) {
      assert Covers(w.s, RetsOf(w.s, t), LiveOf(w, t));
    }
  }

  /** What the acting thread's shadow stack has to cover, and whether it does. */
  lemma {:induction false} CallFollows(w: World, o: Options, tid: nat, sym: Symbol, ret: Addr)
    requires Complete(w) && Possible(w, Call(tid, sym, ret)) && Act(w, o, Call(tid, sym, ret)).Some?
    ensures var w', live := Act(w, o, Call(tid, sym, ret)).value, LiveOf(w, tid) + [ret];
      Covers(w.s, RetsOf(w'.s, tid), live) <==> Follows(w, Call(tid, sym, ret))
  {
    hide Step, Inv, Embeds, CallsAfter;
    var action, th, live := Call(tid, sym, ret), ThreadOf(w.s, tid), LiveOf(w, tid);
    var w' := Act(w, o, action).value;
    assert Covers(w.s, RetsOf(w.s, tid), live);
    if w.s.text[sym.enterAddr] == TRAP {
      var stop := Trap(sym.enterAddr, ret);
      StopIsReal(w, action);
      TrapClassified(w.s, tid, sym.enterAddr, ret);
      if Heard(w.s, tid, sym.enterAddr) {
        HeardTrap(w.s, o, tid, stop);
        EntryIsNoReturn(w.s, th.callstack, sym);
        var j := FindSymbol(w.s.symbols, sym.enterAddr, 0);
        PushedCovers(w.s, th.callstack, FuncFrame(w.s.symbols[j], ret, w.s.calls), live);
      } else {
        OtherwiseSame(w.s, o, tid, stop);
        LiveNonzero(w, action);
        SameCallsCover(w.s, StackOf(w.s, tid), StackOf(w'.s, tid), live + [ret]);
      }
    }
  }

  lemma EntryIsNoReturn(s: State, stack: seq<Frame>, sym: Symbol)
    requires sym in s.symbols && forall i :: 0 <= i < |stack| ==> !IsEntry(s, Rets(stack)[i])
    ensures FindFrame(stack, sym.enterAddr, |stack|) < 0 && FindSymbol(s.symbols, sym.enterAddr, 0) < |s.symbols|
  {
    var j :| 0 <= j < |s.symbols| && s.symbols[j] == sym;
    assert IsEntry(s, sym.enterAddr);
    EntryFound(s, sym.enterAddr);
    forall i | 0 <= i < |stack| ensures stack[i].ReturnAddr() != sym.enterAddr {
      assert Rets(stack)[i] == stack[i].ReturnAddr();
    }
  }

  lemma {:induction false} ReturnFollows(w: World, o: Options, tid: nat)
    requires Complete(w) && Possible(w, Return(tid)) && Act(w, o, Return(tid)).Some?
    ensures var w', live := Act(w, o, Return(tid)).value, LiveOf(w, tid);
      Covers(w.s, RetsOf(w'.s, tid), live[..|live| - 1])
  {
    hide Step, Inv, Embeds;
    var action, stack, live := Return(tid), ThreadOf(w.s, tid).callstack, LiveOf(w, tid);
    var w', r := Act(w, o, action).value, live[|live| - 1];
    assert Covers(w.s, RetsOf(w.s, tid), live);
    EmbedsShorter(live, RetsOf(w.s, tid));
    if w.s.text[r] == TRAP {
      StopIsReal(w, action);
      TrapClassified(w.s, tid, r, 0);
      if Heard(w.s, tid, r) {
        assert stack[..|stack|] == stack;
        ReturnFindsFrame(live, stack, |stack|);
        HeardTrap(w.s, o, tid, Trap(r, 0));
        PrefixRets(w.s, stack, FindFrame(stack, r, |stack|));
      } else {
        OtherwiseSame(w.s, o, tid, Trap(r, 0));
        LiveNonzero(w, action);
        SameCallsCover(w.s, StackOf(w.s, tid), StackOf(w'.s, tid), live[..|live| - 1]);
      }
    }
  }

  lemma PrefixRets(s: State, stack: seq<Frame>, i: nat)
    requires i <= |stack| && forall j :: 0 <= j < |stack| ==> !IsEntry(s, Rets(stack)[j])
    ensures forall j :: 0 <= j < i ==> !IsEntry(s, Rets(stack[..i])[j])
  {
    assert forall j :: 0 <= j < i ==> Rets(stack[..i])[j] == Rets(stack)[j];
  }

  lemma {:induction false} OtherFollows(w: World, o: Options, tid: nat, stop: Stop)
    requires Complete(w) && Possible(w, OtherStop(tid, stop)) && Act(w, o, OtherStop(tid, stop)).Some?
    ensures var w' := Act(w, o, OtherStop(tid, stop)).value;
      Covers(w.s, RetsOf(w'.s, tid), LiveOf(w, tid)) <==> Follows(w, OtherStop(tid, stop))
  {
    hide Step, Inv, Embeds;
    var th, live := ThreadOf(w.s, tid), LiveOf(w, tid);
    var w', e := Act(w, o, OtherStop(tid, stop)).value, Classify(th, stop);
    assert Covers(w.s, RetsOf(w.s, tid), live);
    if w.s.mode == -1 || SteppingBy(w.s, tid) || !e.BreakpointHit? {
      OtherwiseSame(w.s, o, tid, stop);
      LiveNonzero(w, OtherStop(tid, stop));
      SameCallsCover(w.s, StackOf(w.s, tid), StackOf(w'.s, tid), live);
    } else {
      HeardTrap(w.s, o, tid, stop);
      TrapCovers(w.s, th.callstack, e.addr, e.ret, w.s.calls, live);
    }
  }

  lemma {:induction false} TrapCovers(s: State, stack: seq<Frame>, addr: Addr, ret: Addr, call: nat,
                                          live: seq<Addr>)
    requires Covers(s, Rets(stack), live)
    ensures Covers(s, Rets(TrapStack(s.symbols, stack, addr, ret, call)), live) <==>
      var i := FindFrame(stack, addr, |stack|);
      if i >= 0 then Embeds(live, Rets(stack[..i]))
      else IsEntry(s, addr) && |stack| < MAX_CALLDEPTH - 1 ==> !IsEntry(s, ret)
  {
    hide Embeds;
    var i := FindFrame(stack, addr, |stack|);
    EntryFound(s, addr);
    if i >= 0 {
      PrefixRets(s, stack, i);
    } else {
      EmbedsLonger(live, Rets(stack), ret);
      assert (Rets(stack) + [ret])[|stack|] == ret;
      assert forall f: Frame :: Rets(stack + [f]) == Rets(stack) + [f.ReturnAddr()];
    }
  }

  /** Whatever a thread does, live calls stay in the shadow stacks, and no frame returns to a traced entry, exactly when
      the condition holds. */
  lemma {:induction false} ActExact(w: World, o: Options, action: Action)
    requires Complete(w) && Possible(w, action) && Act(w, o, action).Some?
    ensures Complete(Act(w, o, action).value) <==> Follows(w, action)
  {
    hide Complete, Covers, Follows, Sane;
    CompleteMeans(w);
    var w' := Act(w, o, action).value;
    ActMoves(w, o, action);
    ActKeepsSane(w, o, action);
    Settles(w, w', action.tid, CallsAfter(w, action));
    match action
    case Call(tid, sym, ret) => CallFollows(w, o, tid, sym, ret);
    case Return(tid) => ReturnFollows(w, o, tid);
      AlwaysFollows(w, action);
    case Unwind(tid, keep) => UnwindFollows(w, tid, keep);
      AlwaysFollows(w, action);
    case OtherStop(tid, stop) => OtherFollows(w, o, tid, stop);
  }

  lemma CompleteMeans(w: World)
    requires Complete(w)
    ensures Sane(w)
  {
  }

  lemma AlwaysFollows(w: World, action: Action)
    requires action.Return? || action.Unwind?
    ensures Follows(w, action)
  {
  }

  lemma UnwindFollows(w: World, tid: nat, keep: nat)
    requires Complete(w) && tid != 0 && keep <= |LiveOf(w, tid)|
    ensures Covers(w.s, RetsOf(w.s, tid), LiveOf(w, tid)[..keep])
  {
    assert Covers(w.s, RetsOf(w.s, tid), LiveOf(w, tid));
    EmbedsPrefix(LiveOf(w, tid), RetsOf(w.s, tid), keep);
  }

  // --- what it is for ---

  /** The return address of every live traced call keeps a positive count. */
  lemma LiveReturnsCounted(w: World, tid: nat, i: nat)
    requires Complete(w) && tid != 0 && i < |LiveOf(w, tid)|
    ensures Count(w.s, LiveOf(w, tid)[i]) >= 1
  {
    var k := FindTid(w.s.threads, tid, 0);
    assert Covers(w.s, RetsOf(w.s, tid), LiveOf(w, tid));
    EmbedsMember(LiveOf(w, tid), RetsOf(w.s, tid), i);
    var j :| 0 <= j < |RetsOf(w.s, tid)| && RetsOf(w.s, tid)[j] == LiveOf(w, tid)[i];
    FrameInDictionary(w.s, k, j);
  }

  /** With exact text and no step under way, every call of a traced function and every return of a live traced call
      runs into a trap: the tracer misses neither. */
  lemma CallsAndReturnsTrap(w: World, original: Text, a: Addr)
    requires Complete(w) && TextExact(w.s, original)
    requires forall k :: 0 <= k < |w.s.threads| ==> w.s.threads[k].beingEnabled == None
    requires IsEntry(w.s, a) || exists t, i :: t != 0 && 0 <= i < |LiveOf(w, t)| && LiveOf(w, t)[i] == a
    ensures w.s.text[a] == TRAP
  {
    assert ByteExact(w.s, original, a);
    if IsEntry(w.s, a) {
      var j :| 0 <= j < |w.s.symbols| && w.s.symbols[j].enterAddr == a;
      SymbolInDictionary(w.s, j);
    } else {
      var t, i :| t != 0 && 0 <= i < |LiveOf(w, t)| && LiveOf(w, t)[i] == a;
      LiveReturnsCounted(w, t, i);
    }
  }

  // --- whole runs ---

  ghost predicate Leads(w: World, o: Options, action: Action, w': World) {
    Possible(w, action) && Act(w, o, action) == Some(w')
  }

  /** What is traced, with which options. */
  datatype Setup = Setup(symbols: seq<Symbol>, text: Text, pid: nat, options: Options) {
    ghost predicate Proper() {
      pid != 0 && forall j :: 0 <= j < |symbols| ==> symbols[j].enterAddr != 0
    }
  }

  /** The worlds an attached session passes through: each action is possible where it happens. */
  ghost predicate Plays(x: Setup, worlds: seq<World>, actions: seq<Action>) {
    && |worlds| == |actions| + 1
    && worlds[0] == World(Attach(x.symbols, x.text, x.pid), map[])
    && forall i :: 0 <= i < |actions| ==> Leads(worlds[i], x.options, actions[i], worlds[i + 1])
  }

  lemma StartsComplete(x: Setup)
    requires x.Proper()
    ensures Complete(World(Attach(x.symbols, x.text, x.pid), map[]))
  {
    AttachInv(x.symbols, x.text, x.pid);
    InsertSymbolsCounts(Unattached(x.symbols, x.text), x.symbols);
  }

  /** Up to any moment of any run: the live calls have been in the shadow stacks throughout exactly when every action
      met the condition. Recursion, repeated return addresses, longjmps, signals and interrupted steps included. */
  lemma {:induction false} RunComplete(x: Setup, worlds: seq<World>, actions: seq<Action>, n: nat)
    requires x.Proper() && Plays(x, worlds, actions) && n < |worlds|
    ensures (forall i :: 0 <= i <= n ==> Complete(worlds[i])) <==>
      (forall i :: 0 <= i < n ==> Follows(worlds[i], actions[i]))
    decreases n
  {
    hide Complete, Follows;
    if n == 0 {
      StartsComplete(x);
    } else {
      RunComplete(x, worlds, actions, n - 1);
      assert Leads(worlds[n - 1], x.options, actions[n - 1], worlds[n - 1 + 1]);
      if Complete(worlds[n - 1]) {
        ActExact(worlds[n - 1], x.options, actions[n - 1]);
      }
    }
  }

  lemma {:induction false} RunSane(x: Setup, worlds: seq<World>, actions: seq<Action>, n: nat)
    requires x.Proper() && Plays(x, worlds, actions) && n < |worlds|
    ensures Sane(worlds[n])
    decreases n
  {
    hide Sane;
    if n == 0 {
      StartsComplete(x);
      CompleteMeans(worlds[0]);
    } else {
      RunSane(x, worlds, actions, n - 1);
      assert Leads(worlds[n - 1], x.options, actions[n - 1], worlds[n - 1 + 1]);
      ActKeepsSane(worlds[n - 1], x.options, actions[n - 1]);
    }
  }

  // --- runs in which steps are left alone ---

  /** Untouched before the first stop, exact after it. */
  ghost predicate TextRight(s: State, original: Text) {
    if s.mode == -1 then Fresh(s, original) else TextExact(s, original)
  }

  lemma ActKeepsText(w: World, o: Options, action: Action, original: Text)
    requires Sane(w) && Possible(w, action) && Act(w, o, action).Some?
    requires TextRight(w.s, original) && Undisturbed(w.s, action.tid)
    ensures TextRight(Act(w, o, action).value.s, original)
  {
    hide Step, TextExact;
    if StopOf(w, action).Some? {
      StopIsReal(w, action);
      if w.s.mode == -1 {
        FirstStep(w.s, original, o, action.tid, StopOf(w, action).value);
        ExactMode(Act(w, o, action).value.s, original);
      } else {
        StepKeepsExact(w.s, original, o, action.tid, StopOf(w, action).value);
        ExactMode(Act(w, o, action).value.s, original);
      }
    }
  }

  lemma ExactMode(s: State, original: Text)
    requires TextExact(s, original)
    ensures s.mode == 1
  {
  }

  /** In every run in which, while a thread steps, only that thread acts, the text is exact after the first stop. */
  lemma {:induction false} RunKeepsText(x: Setup, worlds: seq<World>, actions: seq<Action>, n: nat)
    requires x.Proper() && Plays(x, worlds, actions) && n < |worlds|
    requires forall i :: 0 <= i < n ==> Undisturbed(worlds[i].s, actions[i].tid)
    ensures TextRight(worlds[n].s, x.text)
    decreases n
  {
    hide Sane, TextRight, Undisturbed;
    if n == 0 {
      StartsFresh(x);
    } else {
      RunKeepsText(x, worlds, actions, n - 1);
      RunSane(x, worlds, actions, n - 1);
      assert Leads(worlds[n - 1], x.options, actions[n - 1], worlds[n - 1 + 1]);
      ActKeepsText(worlds[n - 1], x.options, actions[n - 1], x.text);
    }
  }

  lemma StartsFresh(x: Setup)
    requires x.Proper()
    ensures TextRight(Attach(x.symbols, x.text, x.pid), x.text)
  {
    InsertSymbolsQuiet(Unattached(x.symbols, x.text), x.symbols);
  }

  /** After the first stop, a thread that steps ends its step before it calls or returns, and no other thread acts
      meanwhile; stacks have room; and traps that are neither calls nor returns meet the condition. */
  ghost predicate Orderly(w: World, action: Action) {
    && Undisturbed(w.s, action.tid)
    && (action.OtherStop? || (w.s.mode != -1 && !SteppingBy(w.s, action.tid)))
    && (action.Call? ==> |ThreadOf(w.s, action.tid).callstack| < MAX_CALLDEPTH - 1)
    && (action.OtherStop? ==> Follows(w, action))
  }

  /** A call is taken for a call of that function's address, a return for a return of some frame's. */
  ghost predicate Noticed(w: World, action: Action)
    requires Possible(w, action)
  {
    var stack := StackOf(w.s, action.tid);
    match action
    case Call(tid, sym, _) =>
      && Heard(w.s, tid, sym.enterAddr)
      && FindFrame(stack, sym.enterAddr, |stack|) < 0 && FindSymbol(w.s.symbols, sym.enterAddr, 0) < |w.s.symbols|
    case Return(tid) =>
      var r := LiveOf(w, tid)[|LiveOf(w, tid)| - 1];
      Heard(w.s, tid, r) && FindFrame(stack, r, |stack|) >= 0
    case _ => true
  }

  lemma OrderlyNoticed(w: World, action: Action, original: Text)
    requires Complete(w) && Possible(w, action) && Orderly(w, action) && TextRight(w.s, original)
    ensures Noticed(w, action) && Follows(w, action)
  {
    if action.Call? || action.Return? {
      var stack, live := StackOf(w.s, action.tid), LiveOf(w, action.tid);
      NobodySteps(w.s, action.tid);
      assert Covers(w.s, Rets(stack), live);
      if action.Call? {
        var j :| 0 <= j < |w.s.symbols| && w.s.symbols[j] == action.sym;
        CallsAndReturnsTrap(w, original, action.sym.enterAddr);
        EntryIsNoReturn(w.s, stack, action.sym);
      } else {
        var i := |live| - 1;
        assert 0 <= i < |LiveOf(w, action.tid)|;
        CallsAndReturnsTrap(w, original, live[i]);
        assert stack[..|stack|] == stack;
        ReturnFindsFrame(live, stack, |stack|);
      }
    }
  }

  lemma NobodySteps(s: State, tid: nat)
    requires Inv(s) && tid != 0 && Undisturbed(s, tid) && !SteppingBy(s, tid)
    ensures forall k :: 0 <= k < |s.threads| ==> s.threads[k].beingEnabled == None
  {
    forall k | 0 <= k < |s.threads| && s.threads[k].tid == tid ensures s.threads[k].beingEnabled == None {
      FirstIsOnly(s.threads, tid, k);
    }
  }

  /** In every orderly run, every call of a traced function is taken for a call and every return of a live one for a
      return, neither for the end of a step, and the live calls stay in the shadow stacks. Of which call a return is
      taken for the return is another matter. */
  lemma {:induction false} RunOrderly(x: Setup, worlds: seq<World>, actions: seq<Action>, n: nat)
    requires x.Proper() && Plays(x, worlds, actions) && n < |worlds|
    requires forall i :: 0 <= i < n ==> Orderly(worlds[i], actions[i])
    ensures Complete(worlds[n])
    ensures forall i :: 0 <= i < n ==> Possible(worlds[i], actions[i]) && Noticed(worlds[i], actions[i])
    decreases n
  {
    hide Complete, Noticed, TextRight, Follows;
    if n == 0 {
      StartsComplete(x);
    } else {
      RunOrderly(x, worlds, actions, n - 1);
      RunKeepsText(x, worlds, actions, n - 1);
      assert Leads(worlds[n - 1], x.options, actions[n - 1], worlds[n - 1 + 1]);
      OrderlyNoticed(worlds[n - 1], actions[n - 1], x.text);
      ActExact(worlds[n - 1], x.options, actions[n - 1]);
    }
  }
}
