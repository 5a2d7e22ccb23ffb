/** The breakpoint dictionary over the tracee's memory (breakpoints.c): structures in the hash table, each operation
    proved to do what its counterpart on states does. */
module Breakpoints {
  import opened Memory
  import opened Tracer
  import opened Dict
  import opened Patch

  const WORD: nat := 4

  /** dict_key2hash_int and dict_key_cmp_int */
  const INT_KEYS: Keys<Addr> := Keys((key: Addr) => key % 0x1_0000_0000, (a: Addr, b: Addr) => a == b)

  lemma StoreOne(m: Text, a: Addr, b: Byte)
    ensures Store(m, a, [b]) == Put(m, a, b)
  {
    SameText(Store(m, a, [b]), Put(m, a, b));
  }

  // --- one breakpoint after the other, in whatever order the table yields them ---

  function ActiveAt(s: State, a: Addr): bool {
    a in s.breakpoints && s.breakpoints[a].enabled != 0
  }

  /** enable_bp_cb on each address in turn. */
  function EnableEach(s: State, addrs: seq<Addr>): State
    decreases |addrs|
  {
    if addrs == [] then s
    else
      var s', a := EnableEach(s, addrs[..|addrs| - 1]), addrs[|addrs| - 1];
      if ActiveAt(s', a) then Tracer.EnableBp(s', a) else s'
  }

  /** disable_bp_cb on each address in turn. */
  function DisableEach(s: State, addrs: seq<Addr>): State
    decreases |addrs|
  {
    if addrs == [] then s
    else
      var s', a := DisableEach(s, addrs[..|addrs| - 1]), addrs[|addrs| - 1];
      if ActiveAt(s', a) then Tracer.DisableBp(s', a) else s'
  }

  lemma EnableNone(s: State, addrs: seq<Addr>)
    ensures EnableEach(s, addrs[..0]) == s
  {
  }

  lemma EnableNext(s: State, addrs: seq<Addr>, i: nat)
    requires i < |addrs|
    ensures var s' := EnableEach(s, addrs[..i]);
      EnableEach(s, addrs[..i + 1]) == if ActiveAt(s', addrs[i]) then Tracer.EnableBp(s', addrs[i]) else s'
  {
    assert addrs[..i + 1][..i] == addrs[..i];
  }

  lemma DisableNone(s: State, addrs: seq<Addr>)
    ensures DisableEach(s, addrs[..0]) == s
  {
  }

  lemma DisableNext(s: State, addrs: seq<Addr>, i: nat)
    requires i < |addrs|
    ensures var s' := DisableEach(s, addrs[..i]);
      DisableEach(s, addrs[..i + 1]) == if ActiveAt(s', addrs[i]) then Tracer.DisableBp(s', addrs[i]) else s'
  {
    assert addrs[..i + 1][..i] == addrs[..i];
  }

  ghost predicate Once(addrs: seq<Addr>) {
    forall i, j :: 0 <= i < j < |addrs| ==> addrs[i] != addrs[j]
  }

  /** Each address visited once: its own byte is saved and trapped, and nothing else changes. */
  lemma {:induction false} EnableEachEffect(s: State, addrs: seq<Addr>)
    requires Once(addrs)
    ensures var s' := EnableEach(s, addrs);
      && s' == s.(text := s'.text, breakpoints := s'.breakpoints)
      && (forall x: Addr :: s'.text[x] == if x in addrs && ActiveAt(s, x) then TRAP else s.text[x])
      && s'.breakpoints.Keys == s.breakpoints.Keys
      && (forall a | a in s.breakpoints ::
            s'.breakpoints[a] ==
            if a in addrs && ActiveAt(s, a) then s.breakpoints[a].(origValue := s.text[a]) else s.breakpoints[a])
    decreases |addrs|
  {
    if addrs != [] {
      var init, last := addrs[..|addrs| - 1], addrs[|addrs| - 1];
      EnableEachEffect(s, init);
      assert forall x :: x in addrs <==> x in init || x == last;
      assert last !in init;
    }
  }

  lemma {:induction false} DisableEachEffect(s: State, addrs: seq<Addr>)
    requires Once(addrs)
    ensures var s' := DisableEach(s, addrs);
      && s' == s.(text := s'.text)
      && (forall x: Addr :: s'.text[x] ==
            if x in addrs && ActiveAt(s, x) then s.breakpoints[x].origValue else s.text[x])
    decreases |addrs|
  {
    if addrs != [] {
      var init, last := addrs[..|addrs| - 1], addrs[|addrs| - 1];
      DisableEachEffect(s, init);
      assert forall x :: x in addrs <==> x in init || x == last;
    }
  }

  /** The addresses, each once, that the dictionary holds. */
  ghost predicate Covers(addrs: seq<Addr>, s: State) {
    Once(addrs) && forall a :: a in s.breakpoints <==> a in addrs
  }

  /** Visiting every breakpoint exactly once, in any order, is enabling them all at once. */
  lemma EnableOneByOne(s: State, addrs: seq<Addr>)
    requires Covers(addrs, s) && s.mode <= 0
    ensures EnableEach(s, addrs).(mode := 1) == Tracer.EnableAll(s)
  {
    EnableEachEffect(s, addrs);
    var each, all := EnableEach(s, addrs), Tracer.EnableAll(s);
    SameText(each.text, all.text);
    assert each.breakpoints == all.breakpoints;
  }

  lemma DisableOneByOne(s: State, addrs: seq<Addr>)
    requires Covers(addrs, s) && s.mode != 0
    ensures DisableEach(s, addrs).(mode := 0) == Tracer.DisableAll(s)
  {
    DisableEachEffect(s, addrs);
    SameText(DisableEach(s, addrs).text, Tracer.DisableAll(s).text);
  }

  function Addresses(pairs: seq<(Addr, Breakpoint)>): (addrs: seq<Addr>)
    ensures |addrs| == |pairs|
    ensures forall i :: 0 <= i < |pairs| ==> addrs[i] == pairs[i].0
  {
    seq(|pairs|, i requires 0 <= i < |pairs| => pairs[i].0)
  }

  class Breakpoints {
    const tracee: Tracee
    var pid: nat
    var mode: int
    var table: Dict?<Addr, Breakpoint>
    ghost var bps: map<Addr, Breakpoint>
    ghost var objects: set<object>

    /** `sbp` is the structure the table holds for its address. */
    ghost predicate Has(sbp: Breakpoint)
      reads this`bps
    {
      sbp.addr in bps && bps[sbp.addr] == sbp
    }

    /** What updating `sbp` touches. */
    ghost predicate Reaches(sbp: Breakpoint)
      reads this`bps, this`objects
    {
      Has(sbp) && {sbp, sbp.origValue, tracee} <= objects
    }

    /** The objects that hold the text and the structures. */
    ghost predicate Owns()
      reads this`bps, this`objects
    {
      && this !in objects && tracee in objects
      && (forall a :: a in bps ==> bps[a].addr == a && bps[a] in objects && bps[a].origValue in objects)
      && (forall a, b :: a in bps && b in bps && a != b ==> bps[a].origValue != bps[b].origValue)
    }

    ghost predicate TableOk()
      reads this`bps, this`objects, this`table, table, if table == null then {} else table.Repr
    {
      if table == null then bps == map[]
      else table.Valid() && table.ks == INT_KEYS && Tabulates(table.entered, bps) &&
           this !in table.Repr && table.Repr !! objects
    }

    static ghost predicate BreakpointShows(sbp: Breakpoint, b: BpState)
      reads sbp, sbp.origValue
    {
      sbp.origValue.Length == 1 && b == BpState(sbp.origValue[0], sbp.enabled)
    }

    ghost predicate Mirrors(s: State)
      requires Owns()
      reads this`bps, this`objects, this`pid, this`mode, objects
    {
      && pid == s.pid && mode == s.mode && tracee.text == s.text && s.breakpoints.Keys == bps.Keys
      && (forall a :: a in bps ==> BreakpointShows(bps[a], s.breakpoints[a]))
    }

    ghost predicate Shows(s: State)
      reads this, objects, table, if table == null then {} else table.Repr
    {
      Owns() && TableOk() && Mirrors(s)
    }

    constructor (text: Text, ghost s: State)
      requires s.pid == 0 && s.mode == -1 && s.text == text && s.breakpoints == map[]
      ensures Shows(s) && table == null && fresh(objects)
    {
      var memory := new Tracee(text);
      tracee := memory;
      pid, mode, table, bps, objects := 0, -1, null, map[], {memory};
    }

    /** Only the process id, the mode, the text and the breakpoints of a state are shown here. */
    lemma ShowsSame(s: State, s': State)
      requires Shows(s)
      requires s'.pid == s.pid && s'.mode == s.mode && s'.text == s.text && s'.breakpoints == s.breakpoints
      ensures Shows(s')
    {
    }

    method EnableBp(sbp: Breakpoint, ghost s: State)
      requires Shows(s) && Has(sbp)
      modifies tracee, sbp.origValue
      ensures Shows(Tracer.EnableBp(s, sbp.addr))
    {
      hide Tabulates, Dict.Valid;
      Patch.EnableBreakpoint(tracee, sbp, [TRAP], WORD);
      StoreOne(s.text, sbp.addr, TRAP);
    }

    method DisableBp(sbp: Breakpoint, ghost s: State)
      requires Shows(s) && Has(sbp)
      modifies tracee
      ensures Shows(Tracer.DisableBp(s, sbp.addr))
    {
      hide Tabulates, Dict.Valid;
      Patch.DisableBreakpoint(tracee, sbp, WORD);
      assert sbp.origValue[..] == [sbp.origValue[0]];
      StoreOne(s.text, sbp.addr, sbp.origValue[0]);
    }

    method AddToCount(sbp: Breakpoint, n: int, ghost s: State)
      requires Shows(s) && Has(sbp)
      modifies sbp
      ensures Shows(Tracer.AddToCount(s, sbp.addr, n)) && sbp.enabled == old(sbp.enabled) + n
    {
      hide Tabulates, Dict.Valid;
      sbp.enabled := sbp.enabled + n;
    }

    /** address2bpstruct */
    method Find(addr: Addr, ghost s: State) returns (sbp: Patch.Breakpoint?)
      requires Shows(s) && table != null
      ensures sbp == if addr in bps then bps[addr] else null
      ensures if sbp == null then addr !in s.breakpoints
        else addr in s.breakpoints && sbp.addr == addr && Reaches(sbp) && sbp.enabled == s.breakpoints[addr].enabled
    {
      var found := table.Find(addr);
      TabulatedFinds(INT_KEYS, table.entered, bps, addr);
      sbp := if found.Some? then found.value else null;
    }

    /** The structure insert_breakpoint enters for an address it does not know. */
    method Create(addr: Addr, ghost s: State) returns (sbp: Breakpoint)
      requires Shows(s) && table != null && addr !in bps
      modifies this`bps, this`objects, table.Repr
      ensures Shows(s.(breakpoints := s.breakpoints[addr := BpState(0, 0)])) && table != null
      ensures sbp.addr == addr && bps == old(bps)[addr := sbp] && Reaches(sbp) && sbp.enabled == 0
      ensures fresh(objects - old(objects)) && fresh(table.Repr - old(table.Repr))
    {
      hide TableOk, BreakpointShows;
      TableApart();
      sbp := new Patch.Breakpoint(addr, 1);
      NewShows(sbp);
      EnterTable(sbp);
    }

    lemma TableApart()
      requires TableOk() && table != null
      ensures this !in table.Repr && table.Repr !! objects
    {
    }

    static lemma NewShows(sbp: Breakpoint)
      requires sbp.enabled == 0 && sbp.origValue.Length == 1 && sbp.origValue[0] == 0
      ensures BreakpointShows(sbp, BpState(0, 0))
    {
    }

    method EnterTable(sbp: Breakpoint)
      requires TableOk() && table != null && this !in objects && sbp.addr !in bps
      requires sbp !in table.Repr && sbp.origValue !in table.Repr && this !in table.Repr && table.Repr !! objects
      modifies this`bps, this`objects, table.Repr
      ensures TableOk() && table != null && table == old(table) && fresh(table.Repr - old(table.Repr))
      ensures bps == old(bps)[sbp.addr := sbp] && objects == old(objects) + {sbp, sbp.origValue}
    {
      hide Tabulates, Dict.Valid;
      table.Enter(sbp.addr, sbp);
      TabulatesAppend(old(table.entered), bps, sbp.addr, sbp);
      bps := bps[sbp.addr := sbp];
      objects := objects + {sbp, sbp.origValue};
    }

    ghost function TableObjects(): set<object>
      reads this, table
    {
      if table == null then {} else table.Repr
    }

    /** Breakpoints are only ever added. */
    twostate predicate Grows()
      reads this
    {
      forall a :: a in old(bps) ==> a in bps && bps[a] == old(bps)[a]
    }

    method Insert(addr: Addr, ghost s: State)
      requires Shows(s)
      modifies this, objects, TableObjects()
      ensures Shows(Tracer.Insert(s, addr)) && table != null && addr in bps && Grows()
      ensures fresh(objects - old(objects)) && fresh(TableObjects() - old(TableObjects()))
    {
      hide Owns, TableOk, Mirrors;
      if table == null {
        MakeTable(s);
      }
      var sbp := Obtain(addr, s);
      CountUp(sbp, Known(s, addr));
    }

    /** The state once the table has an entry for `addr`. */
    static ghost function Known(s: State, addr: Addr): State {
      if addr in s.breakpoints then s else s.(breakpoints := s.breakpoints[addr := BpState(0, 0)])
    }

    /** The structure for `addr`, made and entered when there is none. */
    method Obtain(addr: Addr, ghost s: State) returns (sbp: Breakpoint)
      requires Shows(s) && table != null
      modifies this`bps, this`objects, table.Repr
      ensures Shows(Known(s, addr)) && table != null && sbp.addr == addr && Reaches(sbp)
      ensures bps == old(bps) || (addr !in old(bps) && bps == old(bps)[addr := sbp])
      ensures fresh(objects - old(objects)) && fresh(table.Repr - old(table.Repr))
    {
      hide Owns, TableOk, Mirrors;
      var found := Find(addr, s);
      if found == null {
        sbp := Create(addr, s);
      } else {
        sbp := found;
      }
    }

    /** One more reference; the first one plants the trap, once there is a process. */
    method CountUp(sbp: Breakpoint, ghost s: State)
      requires Shows(s) && Has(sbp)
      modifies tracee, sbp, sbp.origValue
      ensures var s1 := Tracer.AddToCount(s, sbp.addr, 1);
        Shows(
          if s1.breakpoints[sbp.addr].enabled == 1 && s1.pid != 0 then Tracer.EnableBp(s1, sbp.addr) else s1)
    {
      assert BreakpointShows(sbp, s.breakpoints[sbp.addr]) && pid == s.pid;
      hide Owns, TableOk, Mirrors;
      AddToCount(sbp, 1, s);
      if sbp.enabled == 1 && pid != 0 {
        EnableBp(sbp, Tracer.AddToCount(s, sbp.addr, 1));
      }
    }

    method MakeTable(ghost s: State)
      requires Shows(s) && table == null
      modifies this`table
      ensures Shows(s) && table != null && fresh(table.Repr)
    {
      table := new Dict(INT_KEYS);
    }

    /** delete_breakpoint, where its assertions hold. */
    method Delete(addr: Addr, ghost s: State)
      requires Shows(s) && Tracer.Delete(s, addr).Ok?
      modifies objects
      ensures Shows(Tracer.Delete(s, addr).value)
    {
      assert table != null && this !in objects;
      hide Owns, TableOk, Mirrors;
      var sbp := Find(addr, s);
      AddToCount(sbp, -1, s);
      if sbp.enabled == 0 {
        DisableBp(sbp, Tracer.AddToCount(s, addr, -1));
      }
    }

    /** The pairs dict_apply_to_all yields: every breakpoint exactly once. */
    method VisitAll(ghost s: State) returns (visited: seq<(Addr, Breakpoint)>)
      requires Shows(s)
      ensures Tabulates(visited, bps) && Covers(Addresses(visited), s)
    {
      visited := [];
      if table != null {
        visited := table.ApplyToAll();
        TabulatesPermuted(table.entered, visited, bps);
      }
      forall a ensures a in s.breakpoints <==> a in Addresses(visited) {
        if a in Addresses(visited) {
          var i :| 0 <= i < |visited| && Addresses(visited)[i] == a;
        }
        if a in bps {
          var i :| 0 <= i < |visited| && visited[i].0 == a;
          assert Addresses(visited)[i] == a;
        }
      }
    }

    method EnableAll(ghost s: State)
      requires Shows(s)
      modifies this`mode, objects
      ensures Shows(Tracer.EnableAll(s))
    {
      assert mode == s.mode && this !in objects;
      hide Owns, TableOk, Mirrors, Tabulates, EnableEach;
      ghost var s' := s;
      if mode <= 0 {
        var visited := VisitAll(s);
        EnableVisited(visited, s);
        s' := EnableEach(s, Addresses(visited));
        EnableOneByOne(s, Addresses(visited));
      }
      SetMode(1, s');
    }

    method SetPid(pid: nat, ghost s: State)
      requires Shows(s)
      modifies this`pid
      ensures Shows(s.(pid := pid))
    {
      this.pid := pid;
    }

    method SetMode(mode: int, ghost s: State)
      requires Shows(s)
      modifies this`mode
      ensures Shows(s.(mode := mode))
    {
      this.mode := mode;
    }

    /** enable_bp_cb */
    method EnableOne(addr: Addr, sbp: Breakpoint, ghost s: State)
      requires Shows(s) && addr in bps && bps[addr] == sbp
      modifies objects
      ensures Shows(if ActiveAt(s, addr) then Tracer.EnableBp(s, addr) else s)
    {
      assert BreakpointShows(sbp, s.breakpoints[addr]);
      if sbp.enabled != 0 {
        EnableBp(sbp, s);
      }
    }

    /** The callback of enable_all_breakpoints on each visited breakpoint. */
    method EnableVisited(visited: seq<(Addr, Breakpoint)>, ghost s: State)
      requires Shows(s) && Tabulates(visited, bps)
      modifies objects
      ensures Shows(EnableEach(s, Addresses(visited)))
    {
      assert this !in objects;
      assert forall i :: 0 <= i < |visited| ==> visited[i].0 in bps && bps[visited[i].0] == visited[i].1;
      hide Owns, TableOk, Mirrors, Tabulates, EnableEach, ActiveAt;
      ghost var addrs := Addresses(visited);
      ghost var s' := s;
      EnableNone(s, addrs);
      for i := 0 to |visited|
        invariant s' == EnableEach(s, addrs[..i]) && Shows(s')
      {
        EnableOne(visited[i].0, visited[i].1, s');
        EnableNext(s, addrs, i);
        s' := EnableEach(s, addrs[..i + 1]);
      }
      assert addrs[..|visited|] == addrs;
    }

    method DisableAll(ghost s: State)
      requires Shows(s)
      modifies this`mode, objects
      ensures Shows(Tracer.DisableAll(s))
    {
      assert mode == s.mode && this !in objects;
      hide Owns, TableOk, Mirrors, Tabulates, DisableEach;
      ghost var s' := s;
      if mode != 0 {
        var visited := VisitAll(s);
        DisableVisited(visited, s);
        s' := DisableEach(s, Addresses(visited));
        DisableOneByOne(s, Addresses(visited));
      }
      SetMode(0, s');
    }

    /** disable_bp_cb */
    method DisableOne(addr: Addr, sbp: Breakpoint, ghost s: State)
      requires Shows(s) && addr in bps && bps[addr] == sbp
      modifies objects
      ensures Shows(if ActiveAt(s, addr) then Tracer.DisableBp(s, addr) else s)
    {
      assert BreakpointShows(sbp, s.breakpoints[addr]);
      if sbp.enabled != 0 {
        DisableBp(sbp, s);
      }
    }

    /** The callback of disable_all_breakpoints on each visited breakpoint. */
    method DisableVisited(visited: seq<(Addr, Breakpoint)>, ghost s: State)
      requires Shows(s) && Tabulates(visited, bps)
      modifies objects
      ensures Shows(DisableEach(s, Addresses(visited)))
    {
      assert this !in objects;
      assert forall i :: 0 <= i < |visited| ==> visited[i].0 in bps && bps[visited[i].0] == visited[i].1;
      hide Owns, TableOk, Mirrors, Tabulates, DisableEach, ActiveAt;
      ghost var addrs := Addresses(visited);
      ghost var s' := s;
      DisableNone(s, addrs);
      for i := 0 to |visited|
        invariant s' == DisableEach(s, addrs[..i]) && Shows(s')
      {
        DisableOne(visited[i].0, visited[i].1, s');
        DisableNext(s, addrs, i);
        s' := DisableEach(s, addrs[..i + 1]);
      }
      assert addrs[..|visited|] == addrs;
    }

    /** breakpoints_init, for the kept symbols; enabling waits, as there is no process yet. */
    method InsertAll(symbols: seq<Symbol>, ghost s: State)
      requires Shows(s)
      modifies this, objects, TableObjects()
      ensures Shows(Tracer.InsertSymbols(s, symbols)) && Grows()
      ensures fresh(objects - old(objects)) && fresh(TableObjects() - old(TableObjects()))
    {
      hide Owns, TableOk, Mirrors;
      ghost var s' := s;
      var i := 0;
      assert symbols[0..] == symbols;
      while i < |symbols|
        invariant 0 <= i <= |symbols| && Shows(s')
        invariant Tracer.InsertSymbols(s', symbols[i..]) == Tracer.InsertSymbols(s, symbols)
        invariant fresh(objects - old(objects)) && fresh(TableObjects() - old(TableObjects())) && Grows()
      {
        Insert(symbols[i].enterAddr, s');
        s' := Tracer.Insert(s', symbols[i].enterAddr);
        assert symbols[i..][1..] == symbols[i + 1..];
        i := i + 1;
      }
    }
  }
}
