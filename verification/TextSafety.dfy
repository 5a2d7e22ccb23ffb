/** What the tracee's text holds: traps where they belong, the original everywhere else, and the original
    everywhere once the tracer lets go. */
module TextSafety {
  import opened Base
  import opened Memory
  import opened Tracer
  import opened RefCounts

  predicate Stepped(s: State, a: Addr) {
    exists k :: 0 <= k < |s.threads| && s.threads[k].beingEnabled == Some(a)
  }

  predicate Active(s: State, a: Addr) {
    a in s.breakpoints && s.breakpoints[a].enabled > 0
  }

  /** The byte at `a` is the original one or the trap of an active breakpoint; an active breakpoint has saved
      the original byte, and is planted unless some thread is stepping over it. */
  ghost predicate ByteSafe(s: State, original: Text, a: Addr) {
    && (s.text[a] == original[a] || (s.text[a] == TRAP && Active(s, a)))
    && (Active(s, a) ==> s.breakpoints[a].origValue == original[a])
    && (Active(s, a) && !Stepped(s, a) ==> s.text[a] == TRAP)
    && (a in s.breakpoints ==> s.breakpoints[a].enabled >= 0)
  }

  ghost predicate TextSafe(s: State, original: Text) {
    && s.mode == 1 && s.pid != 0
    && forall a: Addr :: ByteSafe(s, original, a)
  }

  // --- primitive changes ---

  lemma InsertSafe(s: State, original: Text, a: Addr)
    requires TextSafe(s, original)
    ensures TextSafe(Insert(s, a), original)
  {
    var s' := Insert(s, a);
    forall x: Addr ensures ByteSafe(s', original, x) {
      assert ByteSafe(s, original, x);
      assert ByteSafe(s, original, a);
      assert Stepped(s', x) == Stepped(s, x);
    }
  }

  lemma DeleteSafe(s: State, original: Text, a: Addr)
    requires TextSafe(s, original) && Active(s, a)
    ensures Delete(s, a).Ok? && TextSafe(Delete(s, a).value, original)
  {
    var s' := Delete(s, a).value;
    forall x: Addr ensures ByteSafe(s', original, x) {
      assert ByteSafe(s, original, x);
      assert ByteSafe(s, original, a);
      assert Stepped(s', x) == Stepped(s, x);
    }
  }

  /** A change that touches neither text nor breakpoints, nor which breakpoints are stepped over. */
  lemma SameSafe(s: State, s': State, original: Text)
    requires TextSafe(s, original)
    requires s'.text == s.text && s'.breakpoints == s.breakpoints && s'.mode == s.mode && s'.pid == s.pid
    requires |s'.threads| == |s.threads|
    requires forall k :: 0 <= k < |s.threads| ==> s'.threads[k].beingEnabled == s.threads[k].beingEnabled
    ensures TextSafe(s', original)
  {
    forall x: Addr ensures ByteSafe(s', original, x) {
      assert ByteSafe(s, original, x);
      if Stepped(s, x) {
        var k :| 0 <= k < |s.threads| && s.threads[k].beingEnabled == Some(x);
        assert s'.threads[k].beingEnabled == Some(x);
      }
    }
  }

  lemma PopSafe(s: State, original: Text, k: nat)
    requires TextSafe(s, original) && k < |s.threads| && s.threads[k].callstack != []
    requires var f := s.threads[k].callstack[|s.threads[k].callstack| - 1]; f.FuncFrame? ==> Active(s, f.retAddr)
    ensures Pop(s, k).Ok? && TextSafe(Pop(s, k).value, original)
  {
    var f := s.threads[k].callstack[|s.threads[k].callstack| - 1];
    if f.FuncFrame? {
      DeleteSafe(s, original, f.retAddr);
      SameSafe(Delete(s, f.retAddr).value, Pop(s, k).value, original);
    } else {
      SameSafe(s, Pop(s, k).value, original);
    }
  }

  lemma {:induction false} PopToSafe(s: State, original: Text, k: nat, depth: nat)
    requires TextSafe(s, original) && Inv(s) && k < |s.threads| && s.threads[k].tid != 0
    requires depth <= |s.threads[k].callstack|
    ensures PopTo(s, k, depth).Ok? && TextSafe(PopTo(s, k, depth).value, original)
    decreases |s.threads[k].callstack|
  {
    if |s.threads[k].callstack| > depth {
      PopActive(s, k);
      PopSafe(s, original, k);
      PopKeeps(s, k);
      PopToSafe(Pop(s, k).value, original, k, depth);
    }
  }

  lemma PopActive(s: State, k: nat)
    requires Inv(s) && k < |s.threads| && s.threads[k].callstack != []
    ensures var f := s.threads[k].callstack[|s.threads[k].callstack| - 1]; f.FuncFrame? ==> Active(s, f.retAddr)
  {
    var i := |s.threads[k].callstack| - 1;
    if s.threads[k].callstack[i].FuncFrame? {
      FrameInDictionary(s, k, i);
    }
  }

  lemma ContinueSafe(s: State, original: Text, k: nat, a: Addr)
    requires TextSafe(s, original) && k < |s.threads| && a in s.breakpoints
    requires s.threads[k].beingEnabled == None
    ensures ContinueAfter(s, k, a).Ok? && TextSafe(ContinueAfter(s, k, a).value, original)
  {
    var s' := ContinueAfter(s, k, a).value;
    forall x: Addr ensures ByteSafe(s', original, x) {
      assert ByteSafe(s, original, x) && ByteSafe(s, original, a);
      if Active(s, a) {
        assert s'.threads[k].beingEnabled == Some(a);
        SteppedAfterSet(s, s', k, x);
      }
    }
  }

  /** Setting a thread's stepped-over breakpoint from none keeps every other one stepped over. */
  lemma SteppedAfterSet(s: State, s': State, k: nat, x: Addr)
    requires k < |s.threads| && s.threads[k].beingEnabled == None
    requires |s'.threads| == |s.threads| && forall j :: 0 <= j < |s.threads| && j != k ==> s'.threads[j] == s.threads[j]
    ensures Stepped(s, x) ==> Stepped(s', x)
  {
    if Stepped(s, x) {
      var j :| 0 <= j < |s.threads| && s.threads[j].beingEnabled == Some(x);
      assert s'.threads[j].beingEnabled == Some(x);
    }
  }

  // --- the step-completion trap ---

  /** What the tracer could check, and does not, before putting breakpoint `a` back: it is still wanted and not
      already planted (or the original instruction is itself the trap, when nothing can go wrong). */
  ghost predicate ReinsertOk(s: State, original: Text, a: Addr) {
    original[a] == TRAP || (Active(s, a) && s.text[a] != TRAP)
  }

  lemma ReinsertExact(s: State, original: Text, k: nat, a: Addr)
    requires TextSafe(s, original) && k < |s.threads| && s.threads[k].beingEnabled == Some(a) && a in s.breakpoints
    ensures Reinsert(s, k, a).Ok?
    ensures TextSafe(Reinsert(s, k, a).value, original) <==> ReinsertOk(s, original, a)
  {
    var s' := Reinsert(s, k, a).value;
    assert ByteSafe(s, original, a);
    if ReinsertOk(s, original, a) {
      forall x: Addr ensures ByteSafe(s', original, x) {
        assert ByteSafe(s, original, x);
        if x != a && Stepped(s, x) {
          var j :| 0 <= j < |s.threads| && s.threads[j].beingEnabled == Some(x);
          assert s'.threads[j].beingEnabled == Some(x);
        }
      }
    } else {
      assert !ByteSafe(s', original, a);
    }
  }

  // --- stops ---

  /** The stop ends a single step of thread `k` over breakpoint `a`. */
  predicate EndsStep(s: State, k: nat, stop: Stop)
    requires k < |s.threads|
  {
    Classify(s.threads[k], stop).BreakpointHit? && s.threads[k].beingEnabled.Some?
  }

  lemma ReturnedSafe(s: State, original: Text, o: Options, k: nat, i: nat)
    requires TextSafe(s, original) && Inv(s) && k < |s.threads| && s.threads[k].tid != 0
    requires i < |s.threads[k].callstack|
    ensures Returned(s, o, k, i).Ok? && TextSafe(Returned(s, o, k, i).value, original)
  {
    PopToSafe(s, original, k, i + 1);
    PopToKeeps(s, k, i + 1);
    var s1 := PopTo(s, k, i + 1).value;
    PopActive(s1, k);
    PopSafe(s1, original, k);
    SameSafe(Pop(s1, k).value, Returned(s, o, k, i).value, original);
  }

  lemma CalledSafe(s: State, original: Text, o: Options, k: nat, sym: Symbol, ret: Addr)
    requires TextSafe(s, original) && k < |s.threads|
    ensures TextSafe(Called(s, o, k, sym, ret), original)
  {
    InsertSafe(s, original, ret);
    SameSafe(if Full(s.threads[k]) then s else Insert(s, ret), Called(s, o, k, sym, ret), original);
  }

  lemma ReturnSafe(s: State, original: Text, o: Options, k: nat, i: nat, addr: Addr)
    requires TextSafe(s, original) && Inv(s) && k < |s.threads| && s.threads[k].tid != 0
    requires i < |s.threads[k].callstack| && addr in s.breakpoints && s.threads[k].beingEnabled == None
    ensures HandleReturn(s, o, k, i, addr).Ok? && TextSafe(HandleReturn(s, o, k, i, addr).value, original)
  {
    ReturnedSafe(s, original, o, k, i);
    ReturnedKeeps(s, o, k, i);
    ContinueSafe(Returned(s, o, k, i).value, original, k, addr);
  }

  lemma CallSafe(s: State, original: Text, o: Options, k: nat, j: nat, ret: Addr)
    requires TextSafe(s, original) && Inv(s) && k < |s.threads| && s.threads[k].tid != 0
    requires j < |s.symbols| && s.threads[k].beingEnabled == None
    ensures HandleCall(s, o, k, s.symbols[j], ret).Ok?
    ensures TextSafe(HandleCall(s, o, k, s.symbols[j], ret).value, original)
  {
    var s' := Called(s, o, k, s.symbols[j], ret);
    CalledSafe(s, original, o, k, s.symbols[j], ret);
    CalledKeeps(s, o, k, s.symbols[j], ret);
    SymbolInDictionary(s', j);
    ContinueSafe(s', original, k, s.symbols[j].enterAddr);
  }

  lemma BreakpointSafe(s: State, original: Text, o: Options, k: nat, addr: Addr, ret: Addr)
    requires TextSafe(s, original) && Inv(s) && k < |s.threads| && s.threads[k].tid != 0 && addr != 0
    requires s.threads[k].beingEnabled == None
    ensures HandleBreakpoint(s, o, k, addr, ret).Ok?
    ensures TextSafe(HandleBreakpoint(s, o, k, addr, ret).value, original)
  {
    var i := FindFrame(s.threads[k].callstack, addr, |s.threads[k].callstack|);
    var j := FindSymbol(s.symbols, addr, 0);
    if i >= 0 {
      FrameInDictionary(s, k, i);
      ReturnSafe(s, original, o, k, i, addr);
    } else if j < |s.symbols| {
      CallSafe(s, original, o, k, j, ret);
    } else {
      SameSafe(s, WithPrinter(s, PrintLine(s.printer, o)), original);
    }
  }

  lemma SyscallSafe(s: State, original: Text, o: Options, k: nat, sysnum: int)
    requires TextSafe(s, original) && k < |s.threads|
    ensures TextSafe(HandleSyscall(s, o, k, sysnum), original)
  {
    SameSafe(s, HandleSyscall(s, o, k, sysnum), original);
  }

  lemma SysretSafe(s: State, original: Text, o: Options, k: nat, stop: Stop)
    requires TextSafe(s, original) && Inv(s) && k < |s.threads| && s.threads[k].tid != 0
    requires Classify(s.threads[k], stop).Sysret?
    ensures HandleSysret(s, o, k).Ok? && TextSafe(HandleSysret(s, o, k).value, original)
  {
    SysretPopsItsCall(s, o, k, stop);
    PopSafe(s, original, k);
    SameSafe(Pop(s, k).value, HandleSysret(s, o, k).value, original);
  }

  /** Letting go of the process, at any moment, even between a trap and the end of its step, restores its text. */
  lemma DetachRestores(s: State, original: Text)
    requires TextSafe(s, original)
    ensures DisableAll(s).text == original
  {
    var s' := DisableAll(s);
    forall x: Addr ensures s'.text[x] == original[x] {
      assert ByteSafe(s, original, x);
    }
    SameText(s'.text, original);
  }

  /** Enabling and disabling do not depend on the log. */
  lemma AllAside(s: State, p: PrinterState)
    ensures EnableAll(WithPrinter(s, p)) == WithPrinter(EnableAll(s), p)
    ensures DisableAll(WithPrinter(s, p)) == WithPrinter(DisableAll(s), p)
  {
    var s' := WithPrinter(s, p);
    assert EnableAll(s').breakpoints == EnableAll(s).breakpoints;
    SameText(EnableAll(s').text, EnableAll(s).text);
    SameText(DisableAll(s').text, DisableAll(s).text);
  }

  ghost predicate NextSafe(n: Next, original: Text) {
    match n
    case Running(s) => TextSafe(s, original)
    case Gone(s) => s.mode == 0 ==> s.text == original
    case Quit => true
    case ExecReturned => false
  }

  /** The stop hands back to thread `tid` a breakpoint that must not go back in. */
  ghost predicate BadReinsert(s: State, original: Text, tid: nat, stop: Stop) {
    var k := FindTid(s.threads, tid, 0);
    k < |s.threads| && EndsStep(s, k, stop) && !ReinsertOk(s, original, s.threads[k].beingEnabled.value)
  }

  lemma LocateSafe(s: State, original: Text, tid: nat)
    requires TextSafe(s, original) && Inv(s) && tid != 0 && Locate(s, tid).Some?
    ensures var (s', k) := Locate(s, tid).value;
      && TextSafe(s', original)
      && ((FindTid(s.threads, tid, 0) == k && s' == s) || s'.threads[k].beingEnabled == None)
  {
    if FindTid(s.threads, tid, 0) == |s.threads| {
      var (s', k) := Locate(s, tid).value;
      SameSafe(s, s', original);
      assert ThreadOk(s.threads[k]);
    }
  }

  /** Every stop but a trap keeps the text safe, or lets go with the original text. */
  lemma QuietStopSafe(s: State, original: Text, o: Options, k: nat, stop: Stop)
    requires TextSafe(s, original) && Inv(s) && k < |s.threads| && s.threads[k].tid != 0
    requires !Classify(s.threads[k], stop).BreakpointHit?
    ensures match Handle(s, o, k, Classify(s.threads[k], stop))
      case Ok(n) => n.ExecReturned? || NextSafe(n, original)
      case Aborted => false
  {
    match Classify(s.threads[k], stop)
    case Syscall(sysnum) => SyscallSafe(s, original, o, k, sysnum);
    case Sysret(sysnum) => SysretSafe(s, original, o, k, stop);
    case ExitEvent =>
    case Unknown =>
    case Signal(signum, exiting) =>
      DetachRestores(s, original);
      SameSafe(s, WithPrinter(s, PrintLine(s.printer, o)), original);
  }

  /** Whatever the threads do, a stop keeps the text safe exactly when it is not the end of a step over a
      breakpoint that is no longer wanted or is already back in. */
  lemma StepExact(s: State, original: Text, o: Options, tid: nat, stop: Stop)
    requires TextSafe(s, original) && Inv(s) && RealStop(tid, stop)
    ensures Step(s, o, tid, stop).Ok?
    ensures NextSafe(Step(s, o, tid, stop).value, original) <==> !BadReinsert(s, original, tid, stop)
  {
    StepKeeps(s, o, tid, stop);
    if Locate(s, tid).Some? {
      LocateKeeps(s, tid);
      LocateSafe(s, original, tid);
      var (s1, k) := Locate(s, tid).value;
      if !Classify(s1.threads[k], stop).BreakpointHit? {
        QuietStopSafe(s1, original, o, k, stop);
      } else if s1.threads[k].beingEnabled.Some? {
        ReinsertExact(s1, original, k, s1.threads[k].beingEnabled.value);
      } else {
        BreakpointSafe(s1, original, o, k, DecrPc(stop.pc), stop.ret);
      }
    }
  }

  // --- whole runs ---

  /** While some thread is stepping over a breakpoint, only that thread's stops are processed. */
  ghost predicate Undisturbed(s: State, tid: nat) {
    forall j :: 0 <= j < |s.threads| && s.threads[j].beingEnabled.Some? ==> s.threads[j].tid == tid
  }

  /** At most one thread is stepping, over a breakpoint that is active and lifted. */
  ghost predicate StepPending(s: State, original: Text) {
    forall j :: 0 <= j < |s.threads| && s.threads[j].beingEnabled.Some? ==>
      && Active(s, s.threads[j].beingEnabled.value)
      && s.text[s.threads[j].beingEnabled.value] == original[s.threads[j].beingEnabled.value]
      && forall i :: 0 <= i < |s.threads| && i != j ==> s.threads[i].beingEnabled == None
  }

  /** The byte at `a` is the trap exactly when its count is positive and no thread is stepping over it;
      otherwise it is the original one. */
  ghost predicate ByteExact(s: State, original: Text, a: Addr) {
    s.text[a] == if Active(s, a) && !Stepped(s, a) then TRAP else original[a]
  }

  ghost predicate TextExact(s: State, original: Text) {
    && TextSafe(s, original) && StepPending(s, original)
    && forall a: Addr :: ByteExact(s, original, a)
  }

  lemma SafeIsExact(s: State, original: Text)
    requires TextSafe(s, original) && StepPending(s, original)
    ensures TextExact(s, original)
  {
    forall a: Addr ensures ByteExact(s, original, a) {
      assert ByteSafe(s, original, a);
      if Stepped(s, a) {
        var j :| 0 <= j < |s.threads| && s.threads[j].beingEnabled == Some(a);
      }
    }
  }

  /** So a breakpoint is never armed over a trap: whichever way that can come next, the byte saved is the original. */
  lemma ArmingSavesOriginal(s: State, original: Text, a: Addr)
    requires TextExact(s, original)
    ensures Insert(s, a).breakpoints[a].origValue == original[a]
    ensures forall k :: 0 <= k < |s.threads| && s.threads[k].beingEnabled == Some(a) ==>
      Reinsert(s, k, a).Ok? && Reinsert(s, k, a).value.breakpoints[a].origValue == original[a]
  {
    assert ByteSafe(s, original, a) && ByteExact(s, original, a);
  }

  lemma ContinuePending(s: State, original: Text, k: nat, a: Addr)
    requires TextSafe(s, original) && k < |s.threads| && a in s.breakpoints
    requires forall j :: 0 <= j < |s.threads| ==> s.threads[j].beingEnabled == None
    ensures ContinueAfter(s, k, a).Ok? && StepPending(ContinueAfter(s, k, a).value, original)
  {
    assert ByteSafe(s, original, a);
  }

  lemma ReturnPending(s: State, original: Text, o: Options, k: nat, i: nat, addr: Addr)
    requires TextSafe(s, original) && Inv(s) && k < |s.threads| && s.threads[k].tid != 0
    requires i < |s.threads[k].callstack| && addr in s.breakpoints
    requires forall j :: 0 <= j < |s.threads| ==> s.threads[j].beingEnabled == None
    ensures HandleReturn(s, o, k, i, addr).Ok? && StepPending(HandleReturn(s, o, k, i, addr).value, original)
  {
    ReturnedSafe(s, original, o, k, i);
    ReturnedKeeps(s, o, k, i);
    ContinuePending(Returned(s, o, k, i).value, original, k, addr);
  }

  lemma CallPending(s: State, original: Text, o: Options, k: nat, j: nat, ret: Addr)
    requires TextSafe(s, original) && Inv(s) && k < |s.threads| && s.threads[k].tid != 0 && j < |s.symbols|
    requires forall i :: 0 <= i < |s.threads| ==> s.threads[i].beingEnabled == None
    ensures HandleCall(s, o, k, s.symbols[j], ret).Ok?
    ensures StepPending(HandleCall(s, o, k, s.symbols[j], ret).value, original)
  {
    var s' := Called(s, o, k, s.symbols[j], ret);
    CalledSafe(s, original, o, k, s.symbols[j], ret);
    CalledKeeps(s, o, k, s.symbols[j], ret);
    SymbolInDictionary(s', j);
    ContinuePending(s', original, k, s.symbols[j].enterAddr);
  }

  lemma BreakpointPending(s: State, original: Text, o: Options, k: nat, addr: Addr, ret: Addr)
    requires TextSafe(s, original) && Inv(s) && k < |s.threads| && s.threads[k].tid != 0 && addr != 0
    requires forall j :: 0 <= j < |s.threads| ==> s.threads[j].beingEnabled == None
    ensures HandleBreakpoint(s, o, k, addr, ret).Ok?
    ensures StepPending(HandleBreakpoint(s, o, k, addr, ret).value, original)
  {
    var i := FindFrame(s.threads[k].callstack, addr, |s.threads[k].callstack|);
    var j := FindSymbol(s.symbols, addr, 0);
    if i >= 0 {
      FrameInDictionary(s, k, i);
      ReturnPending(s, original, o, k, i, addr);
    } else if j < |s.symbols| {
      CallPending(s, original, o, k, j, ret);
    }
  }

  lemma QuietPending(s: State, s': State, original: Text)
    requires StepPending(s, original) && s'.text == s.text && s'.breakpoints == s.breakpoints
    requires |s'.threads| == |s.threads|
    requires forall k :: 0 <= k < |s.threads| ==> s'.threads[k].beingEnabled == s.threads[k].beingEnabled
    ensures StepPending(s', original)
  {
  }

  /** In a run where only the stepping thread's stops are processed, the text is exact after every stop. */
  lemma StepKeepsExact(s: State, original: Text, o: Options, tid: nat, stop: Stop)
    requires TextExact(s, original) && Inv(s) && RealStop(tid, stop) && Undisturbed(s, tid)
    ensures Step(s, o, tid, stop).Ok?
    ensures match Step(s, o, tid, stop).value
      case Running(s') => TextExact(s', original)
      case Gone(s') => s'.mode == 0 ==> s'.text == original
      case Quit => true
      case ExecReturned => false
  {
    StepExact(s, original, o, tid, stop);
    if Locate(s, tid).Some? {
      LocateKeeps(s, tid);
      LocateSafe(s, original, tid);
      var (s1, k) := Locate(s, tid).value;
      assert ThreadOk(s.threads[k]);
      OnlyHere(s, tid, k);
      QuietPending(s, s1, original);
      StepPends(s1, original, o, k, stop);
      var n := Step(s, o, tid, stop).value;
      if n.Running? {
        assert TextSafe(n.s, original);
        SafeIsExact(n.s, original);
      }
    }
  }

  lemma OnlyHere(s: State, tid: nat, k: nat)
    requires StacksOk(s) && Undisturbed(s, tid) && tid != 0 && Locate(s, tid).Some? && Locate(s, tid).value.1 == k
    ensures forall j :: 0 <= j < |s.threads| && j != k ==> s.threads[j].beingEnabled == None
  {
    forall j | 0 <= j < |s.threads| && s.threads[j].tid == tid ensures j == k {
      var f := FindTid(s.threads, tid, 0);
      assert f <= j;
    }
  }

  lemma QuietStopPends(s: State, original: Text, o: Options, k: nat, stop: Stop)
    requires Inv(s) && StepPending(s, original) && s.mode == 1 && k < |s.threads| && s.threads[k].tid != 0
    requires !Classify(s.threads[k], stop).BreakpointHit?
    ensures match Handle(s, o, k, Classify(s.threads[k], stop))
      case Ok(Running(s')) => StepPending(s', original)
      case _ => true
  {
    match Classify(s.threads[k], stop)
    case Syscall(sysnum) => QuietPending(s, HandleSyscall(s, o, k, sysnum), original);
    case Sysret(sysnum) =>
      SysretPopsItsCall(s, o, k, stop);
      QuietPending(s, HandleSysret(s, o, k).value, original);
    case ExitEvent =>
    case Unknown =>
    case Signal(signum, exiting) =>
  }

  lemma {:induction false} StepPends(s: State, original: Text, o: Options, k: nat, stop: Stop)
    requires TextSafe(s, original) && Inv(s) && StepPending(s, original)
    requires k < |s.threads| && s.threads[k].tid != 0 && RealStop(s.threads[k].tid, stop)
    requires forall j :: 0 <= j < |s.threads| && j != k ==> s.threads[j].beingEnabled == None
    ensures match Handle(s, o, k, Classify(s.threads[k], stop))
      case Ok(Running(s')) => StepPending(s', original)
      case _ => true
  {
    if !Classify(s.threads[k], stop).BreakpointHit? {
      QuietStopPends(s, original, o, k, stop);
    } else if s.threads[k].beingEnabled == None {
      BreakpointPending(s, original, o, k, DecrPc(stop.pc), stop.ret);
    }
  }

  /** The first stop of a fresh session plants every counted breakpoint. */
  lemma FirstStopArms(s: State, original: Text)
    requires Inv(s) && s.mode == -1 && s.pid != 0 && s.text == original
    requires forall k :: 0 <= k < |s.threads| ==> s.threads[k].beingEnabled == None
    ensures TextExact(EnableAll(s), original)
  {
    var s' := EnableAll(s);
    forall a: Addr ensures ByteSafe(s', original, a) {
      assert Count(s, a) == References(s, a);
    }
    SafeIsExact(s', original);
  }

  /** Before the first stop of an attached process. */
  ghost predicate Fresh(s: State, original: Text) {
    && s.mode == -1 && s.pid != 0 && s.text == original
    && forall k :: 0 <= k < |s.threads| ==> s.threads[k].beingEnabled == None
  }

  ghost predicate AlwaysUndisturbed(s: State, o: Options, inputs: seq<Input>)
    decreases |inputs|
  {
    inputs == [] ||
    (AlwaysUndisturbed(s, o, inputs[..|inputs| - 1]) &&
     match Run(s, o, inputs[..|inputs| - 1])
     case Ok(Running(s')) => Undisturbed(s', inputs[|inputs| - 1].tid)
     case _ => true)
  }

  lemma {:induction false} InsertSymbolsQuiet(s: State, symbols: seq<Symbol>)
    requires s.pid == 0
    ensures var s' := InsertSymbols(s, symbols);
      s'.text == s.text && s'.threads == s.threads && s'.mode == s.mode && s'.pid == 0
    decreases |symbols|
  {
    if symbols != [] {
      InsertSymbolsQuiet(Insert(s, symbols[0].enterAddr), symbols[1..]);
    }
  }

  /** In every run from attachment on in which stops during a step come only from the stepping thread: the text
      is untouched until the first stop, exact after every later one, and the original once the tracer has let go. */
  lemma {:induction false} RunKeepsExact(symbols: seq<Symbol>, original: Text, pid: nat, o: Options, inputs: seq<Input>)
    requires pid != 0 && RealStops(inputs) && AlwaysUndisturbed(Attach(symbols, original, pid), o, inputs)
    ensures match Run(Attach(symbols, original, pid), o, inputs)
      case Ok(Running(s)) => if inputs == [] then Fresh(s, original) else TextExact(s, original)
      case Ok(Gone(s)) => s.mode == 0 ==> s.text == original
      case Ok(Quit) => true
      case _ => false
    decreases |inputs|
  {
    var start := Attach(symbols, original, pid);
    var empty := Unattached(symbols, original);
    InsertSymbolsQuiet(empty, symbols);
    if inputs != [] {
      var before, last := inputs[..|inputs| - 1], inputs[|inputs| - 1];
      RunKeepsExact(symbols, original, pid, o, before);
      RunKeeps(symbols, original, pid, o, before);
      var n := Run(start, o, before).value;
      if n.Running? {
        StepKeeps(n.s, o, last.tid, last.stop);
        if before == [] {
          FirstStep(n.s, original, o, last.tid, last.stop);
        } else {
          StepKeepsExact(n.s, original, o, last.tid, last.stop);
        }
      }
    }
  }

  lemma FirstStep(s: State, original: Text, o: Options, tid: nat, stop: Stop)
    requires Inv(s) && Fresh(s, original) && tid != 0
    ensures match Step(s, o, tid, stop)
      case Ok(Running(s')) => TextExact(s', original)
      case Ok(Quit) => true
      case _ => false
  {
    if Locate(s, tid).Some? {
      LocateKeeps(s, tid);
      FirstStopArms(Locate(s, tid).value.0, original);
    }
  }

  // --- exactly when the text stays safe ---

  ghost predicate SafeAfter(start: State, original: Text, o: Options, inputs: seq<Input>) {
    match Run(start, o, inputs)
    case Ok(n) => NextSafe(n, original)
    case Aborted => false
  }

  /** Stop number `i` hands back a breakpoint that must not go back in. */
  ghost predicate BadStop(start: State, original: Text, o: Options, inputs: seq<Input>, i: nat)
    requires i < |inputs|
  {
    match Run(start, o, inputs[..i])
    case Ok(Running(s)) => BadReinsert(s, original, inputs[i].tid, inputs[i].stop)
    case _ => false
  }

  lemma RunOneMore(start: State, o: Options, inputs: seq<Input>, i: nat)
    requires i < |inputs|
    ensures Run(start, o, inputs[..i + 1]) ==
      match Run(start, o, inputs[..i])
      case Ok(Running(s)) => Step(s, o, inputs[i].tid, inputs[i].stop)
      case r => r
  {
    hide Step;
    assert inputs[..i + 1][..i] == inputs[..i];
  }

  lemma FirstStopSafe(symbols: seq<Symbol>, original: Text, pid: nat, o: Options, input: Input)
    requires pid != 0 && RealStop(input.tid, input.stop)
    ensures var start := Attach(symbols, original, pid);
      match Step(start, o, input.tid, input.stop)
      case Ok(n) => NextSafe(n, original)
      case Aborted => false
  {
    hide Step;
    AttachInv(symbols, original, pid);
    InsertSymbolsQuiet(Unattached(symbols, original), symbols);
    FirstStep(Attach(symbols, original, pid), original, o, input.tid, input.stop);
  }

  /** Up to any stop of any run: from the first stop on the text has been safe throughout exactly when no stop handed
      back a breakpoint that must not go back in. */
  lemma {:induction false} RunSafeExact(symbols: seq<Symbol>, original: Text, pid: nat, o: Options, inputs: seq<Input>,
                                        n: nat)
    requires pid != 0 && RealStops(inputs) && n <= |inputs|
    ensures var start := Attach(symbols, original, pid);
      (forall i :: 1 <= i <= n ==> SafeAfter(start, original, o, inputs[..i])) <==>
      (forall i :: 1 <= i < n ==> !BadStop(start, original, o, inputs, i))
    decreases n
  {
    hide Step, Run, Attach, NextSafe, BadReinsert, Inv;
    var start := Attach(symbols, original, pid);
    if n == 1 {
      RunOneMore(start, o, inputs, 0);
      RunNothing(start, o);
      assert inputs[..0] == [];
      FirstStopSafe(symbols, original, pid, o, inputs[0]);
    } else if n > 1 {
      RunSafeExact(symbols, original, pid, o, inputs, n - 1);
      RunOneMore(start, o, inputs, n - 1);
      RunKeeps(symbols, original, pid, o, inputs[..n - 1]);
      var r := Run(start, o, inputs[..n - 1]).value;
      if r.Running? && NextSafe(r, original) {
        SafeMeans(r.s, original);
        StepExact(r.s, original, o, inputs[n - 1].tid, inputs[n - 1].stop);
      }
      assert SafeAfter(start, original, o, inputs[..n - 1]) ==>
          (SafeAfter(start, original, o, inputs[..n]) <==> !BadStop(start, original, o, inputs, n - 1));
    }
  }

  lemma RunNothing(start: State, o: Options)
    ensures Run(start, o, []) == Ok(Running(start))
  {
  }

  lemma SafeMeans(s: State, original: Text)
    requires NextSafe(Running(s), original)
    ensures TextSafe(s, original)
  {
  }
}
