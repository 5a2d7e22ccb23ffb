/** Time accounting and the final report (the -c branch of output_right in output.c, summary.c). */
module Summary {
  import opened Base
  import opened Dict

  const MILLION := 1_000_000

  datatype Row = Row(count: nat, sec: nat, usec: nat) {
    function Micros(): nat {
      MILLION * sec + usec
    }
  }

  /** The carry of output_right: exactly a million stays in the microseconds. */
  function AddCharge(r: Row, c: Charge): Row {
    if r.usec + c.usec > MILLION then Row(r.count + 1, r.sec + 1 + c.sec, r.usec + c.usec - MILLION)
    else Row(r.count + 1, r.sec + c.sec, r.usec + c.usec)
  }

  /** What has been accumulated for `name` after the returns `ledger`. */
  function RowFor(ledger: seq<Charge>, name: string): Row {
    if ledger == [] then Row(0, 0, 0)
    else
      var r, c := RowFor(ledger[..|ledger| - 1], name), ledger[|ledger| - 1];
      if c.name == name then AddCharge(r, c) else r
  }

  // --- what the rows should be ---

  function Returns(ledger: seq<Charge>, name: string): nat {
    if ledger == [] then 0
    else Returns(ledger[..|ledger| - 1], name) + if ledger[|ledger| - 1].name == name then 1 else 0
  }

  function Charged(ledger: seq<Charge>, name: string): nat {
    if ledger == [] then 0
    else
      var c := ledger[|ledger| - 1];
      Charged(ledger[..|ledger| - 1], name) + if c.name == name then MILLION * c.sec + c.usec else 0
  }

  function TotalCharged(ledger: seq<Charge>): nat {
    if ledger == [] then 0
    else TotalCharged(ledger[..|ledger| - 1]) + MILLION * ledger[|ledger| - 1].sec + ledger[|ledger| - 1].usec
  }

  predicate Proper(c: Charge) {
    c.usec <= MILLION
  }

  ghost predicate AllProper(ledger: seq<Charge>) {
    forall i :: 0 <= i < |ledger| ==> Proper(ledger[i])
  }

  /** A row counts the returns and sums their times exactly, with microseconds up to and including a million. */
  lemma {:induction false} RowExact(ledger: seq<Charge>, name: string)
    requires AllProper(ledger)
    ensures var r := RowFor(ledger, name);
      r.count == Returns(ledger, name) && r.Micros() == Charged(ledger, name) && r.usec <= MILLION
  {
    if ledger != [] {
      assert Proper(ledger[|ledger| - 1]);
      RowExact(ledger[..|ledger| - 1], name);
    }
  }

  /** Seconds are carried only past a million: microseconds that stand at zero have been zero throughout. */
  lemma {:induction false} CarriesPastMillion(ledger: seq<Charge>, name: string)
    requires AllProper(ledger)
    ensures RowFor(ledger, name).usec == 0 <==>
      forall i :: 0 <= i < |ledger| && ledger[i].name == name ==> ledger[i].usec == 0
  {
    if ledger != [] {
      var init, last := ledger[..|ledger| - 1], ledger[|ledger| - 1];
      CarriesPastMillion(init, name);
      RowExact(init, name);
      assert Proper(last) && ledger == init + [last];
      assert forall i :: 0 <= i < |init| ==> ledger[i] == init[i];
    }
  }

  // --- totals over the rows ---

  function CountSum(ledger: seq<Charge>, names: seq<string>): nat {
    if names == [] then 0 else CountSum(ledger, names[..|names| - 1]) + RowFor(ledger, names[|names| - 1]).count
  }

  function MicrosSum(ledger: seq<Charge>, names: seq<string>): nat {
    if names == [] then 0 else MicrosSum(ledger, names[..|names| - 1]) + RowFor(ledger, names[|names| - 1]).Micros()
  }

  predicate Distinct(names: seq<string>) {
    forall i, j :: 0 <= i < j < |names| ==> names[i] != names[j]
  }

  lemma {:induction false} SumsEmpty(names: seq<string>)
    ensures CountSum([], names) == 0 && MicrosSum([], names) == 0
    decreases |names|
  {
    if names != [] {
      SumsEmpty(names[..|names| - 1]);
    }
  }

  /** One more return adds to the row of its name, once. */
  lemma {:induction false} SumsAddOne(ledger: seq<Charge>, c: Charge, names: seq<string>)
    requires Distinct(names)
    ensures CountSum(ledger + [c], names) == CountSum(ledger, names) + if c.name in names then 1 else 0
    ensures MicrosSum(ledger + [c], names) ==
      MicrosSum(ledger, names) + if c.name in names then MILLION * c.sec + c.usec else 0
    decreases |names|
  {
    if names != [] {
      var init, last := names[..|names| - 1], names[|names| - 1];
      SumsAddOne(ledger, c, init);
      assert (ledger + [c])[..|ledger|] == ledger;
      assert c.name in names <==> c.name in init || c.name == last;
      assert last !in init;
    }
  }

  /** Summed over the rows of all names, each name once, counts give the number of returns and times the total. */
  lemma {:induction false} RowsAddUp(ledger: seq<Charge>, names: seq<string>)
    requires Distinct(names) && forall i :: 0 <= i < |ledger| ==> ledger[i].name in names
    ensures CountSum(ledger, names) == |ledger| && MicrosSum(ledger, names) == TotalCharged(ledger)
    decreases |ledger|
  {
    if ledger == [] {
      SumsEmpty(names);
    } else {
      var init, last := ledger[..|ledger| - 1], ledger[|ledger| - 1];
      assert init + [last] == ledger;
      RowsAddUp(init, names);
      SumsAddOne(init, last, names);
    }
  }

  // --- order and percentages ---

  /** compar: negative when `a` is listed first. */
  function Compar(a: Row, b: Row): int {
    if b.sec - a.sec != 0 then b.sec - a.sec else b.usec - a.usec
  }

  /** The rows are compared by their total time, most first. */
  lemma ComparOrders(a: Row, b: Row)
    requires a.usec <= MILLION && b.usec <= MILLION
    ensures a.Micros() > b.Micros() ==> Compar(a, b) < 0
    ensures Compar(a, b) <= 0 ==> a.Micros() >= b.Micros()
    ensures Compar(a, b) == 0 <==> (a.sec, a.usec) == (b.sec, b.usec)
  {
  }

  /** The percentage of a row as printed, in hundredths: the digits before the point, then two after it. */
  function Hundredths(c: nat, total: nat): nat
    requires total > 0
  {
    var p := 100000 * c / total + 5;
    p / 1000 * 100 + p / 10 % 100
  }

  lemma Digits(p: nat)
    ensures p / 1000 * 100 + p / 10 % 100 == p / 10
  {
  }

  lemma Division(n: nat, d: nat)
    requires d > 0
    ensures n / d * d <= n < n / d * d + d
  {
  }

  lemma Scale(a: int, b: int, t: nat)
    requires a <= b
    ensures a * t <= b * t
  {
    assert b * t == a * t + (b - a) * t;
  }

  /** It is the exact percentage rounded half up. */
  lemma {:induction false} RoundsHalfUp(c: nat, total: nat)
    requires total > 0
    ensures 20000 * c - total < 2 * (Hundredths(c, total) * total) <= 20000 * c + total
  {
    var q := 100000 * c / total;
    Division(100000 * c, total);
    Digits(q + 5);
    Nearest(c, total, q, Hundredths(c, total));
  }

  lemma {:induction false} Nearest(c: nat, total: nat, q: nat, h: nat)
    requires q * total <= 100000 * c < q * total + total && 10 * h <= q + 5 < 10 * h + 10
    ensures 20000 * c - total < 2 * (h * total) <= 20000 * c + total
  {
    Between(q, h, total);
  }

  lemma {:induction false} Between(q: nat, h: nat, t: nat)
    requires 10 * h - 5 <= q <= 10 * h + 4
    ensures 10 * (h * t) - 5 * t <= q * t <= 10 * (h * t) + 4 * t
  {
    var d := q - 10 * h;
    Scale(-5, d, t);
    Scale(d, 4, t);
    assert q * t == 10 * (h * t) + d * t;
  }

  function SharesSum(cs: seq<nat>, total: nat): nat
    requires total > 0
  {
    if cs == [] then 0 else SharesSum(cs[..|cs| - 1], total) + Hundredths(cs[|cs| - 1], total)
  }

  function Sum(cs: seq<nat>): nat {
    if cs == [] then 0 else Sum(cs[..|cs| - 1]) + cs[|cs| - 1]
  }

  lemma {:induction false} SharesNear(cs: seq<nat>, total: nat)
    requires total > 0
    ensures 20000 * Sum(cs) - |cs| * total <= 2 * (SharesSum(cs, total) * total) <= 20000 * Sum(cs) + |cs| * total
    decreases |cs|
  {
    if cs != [] {
      hide Hundredths;
      var init, last := cs[..|cs| - 1], cs[|cs| - 1];
      SharesNear(init, total);
      RoundsHalfUp(last, total);
      Distribute(SharesSum(init, total), Hundredths(last, total), total);
      Distribute(|init|, 1, total);
    }
  }

  lemma Distribute(a: int, b: int, t: int)
    ensures (a + b) * t == a * t + b * t
  {
  }

  /** `n` printed percentages of a whole sum to within n/2 hundredths of 100.00. */
  lemma {:induction false} PercentagesSum(cs: seq<nat>, total: nat)
    requires total > 0 && Sum(cs) == total
    ensures 20000 - |cs| <= 2 * SharesSum(cs, total) <= 20000 + |cs|
  {
    SharesNear(cs, total);
    Within(SharesSum(cs, total), |cs|, total);
  }

  lemma {:induction false} Within(s: nat, n: nat, total: nat)
    requires total > 0 && 20000 * total - n * total <= 2 * (s * total) <= 20000 * total + n * total
    ensures 20000 - n <= 2 * s <= 20000 + n
  {
    Cancel(20000 - n, 2 * s, total);
    Cancel(2 * s, 20000 + n, total);
    assert (20000 - n) * total == 20000 * total - n * total;
    assert (20000 + n) * total == 20000 * total + n * total;
  }

  lemma {:induction false} Cancel(a: int, b: int, t: nat)
    requires t > 0
    ensures a * t <= b * t ==> a <= b
  {
    if a > b {
      Scale(b + 1, a, t);
      Distribute(b, 1, t);
    }
  }

  /** Rows sorted by compar come in order of falling total time. */
  lemma {:induction false} ReportDescends(rows: seq<Row>, i: nat, j: nat)
    requires i <= j < |rows| && forall k :: 0 <= k < |rows| ==> rows[k].usec <= MILLION
    requires forall k :: 0 <= k < |rows| - 1 ==> Compar(rows[k], rows[k + 1]) <= 0
    ensures rows[i].Micros() >= rows[j].Micros()
    decreases j
  {
    if i < j {
      ReportDescends(rows, i, j - 1);
      ComparOrders(rows[j - 1], rows[j - 1 + 1]);
    }
  }

  // --- what is charged ---

  datatype Time = Time(sec: int, usec: int) {
    function Micros(): int {
      MILLION * sec + usec
    }
  }

  /** calc_time_spent */
  function TimeSpent(start: Time, now: Time): Time {
    if now.usec >= start.usec then Time(now.sec - start.sec, now.usec - start.usec)
    else Time(now.sec - start.sec + 1, MILLION + now.usec - start.usec)
  }

  /** The borrow goes the wrong way: the time is right exactly when none is needed, and else two seconds too long. */
  lemma TimeSpentIsElapsed(start: Time, now: Time)
    requires 0 <= start.usec < MILLION && 0 <= now.usec < MILLION
    ensures 0 <= TimeSpent(start, now).usec < MILLION
    ensures TimeSpent(start, now).Micros() == now.Micros() - start.Micros() <==> now.usec >= start.usec
    ensures now.usec < start.usec ==> TimeSpent(start, now).Micros() == now.Micros() - start.Micros() + 2 * MILLION
  {
  }

  // --- the tables ---

  /** A character of a C string, extended to an unsigned int. */
  function CharBits(c: char): bv32 {
    var b := c as int % 256;
    (if b < 128 then b else 0x1_0000_0000 - 256 + b) as bv32
  }

  function Mix(total: bv32, c: char, shift: nat): bv32
    requires shift <= 24
  {
    total ^ (CharBits(c) << shift)
  }

  function HashFrom(s: string, total: bv32, shift: nat): bv32
    requires shift <= 24
    decreases |s|
  {
    if s == [] then total
    else HashFrom(s[1..], Mix(total, s[0], shift), NextShift(shift))
  }

  /** How far the next character is shifted. */
  function NextShift(shift: nat): nat {
    if shift + 5 > 24 then shift + 5 - 24 else shift + 5
  }

  function HashString(s: string): nat {
    HashFrom(s, 0, 0) as nat
  }

  /** The shift of character number `n` of a string: five bits more each time, from 1 to 24 after the first. */
  function ShiftAt(n: nat): (shift: nat)
    ensures shift <= 24
  {
    if n == 0 then 0 else (5 * n - 1) % 24 + 1
  }

  lemma ShiftNext(n: nat)
    ensures NextShift(ShiftAt(n)) == ShiftAt(n + 1)
  {
    if n > 0 {
      Remainder(5 * n - 1, 5);
    }
  }

  lemma Remainder(a: nat, d: nat)
    requires d < 24
    ensures (a + d) % 24 == if a % 24 + d >= 24 then a % 24 + d - 24 else a % 24 + d
  {
    var q, r := a / 24, a % 24;
    assert a + d == 24 * q + (r + d);
  }

  lemma {:induction false} HashGoesOn(s: string, c: char, total: bv32, n: nat)
    ensures HashFrom(s + [c], total, ShiftAt(n)) == Mix(HashFrom(s, total, ShiftAt(n)), c, ShiftAt(n + |s|))
    decreases |s|
  {
    hide Mix;
    ShiftNext(n);
    if s == "" {
      assert [c][1..] == "" && s + [c] == [c];
    } else {
      assert (s + [c])[1..] == s[1..] + [c];
      HashGoesOn(s[1..], c, Mix(total, s[0], ShiftAt(n)), n + 1);
    }
  }

  /** The hash of a string is the exclusive or of its characters' bits, each shifted for its place. */
  lemma {:induction false} HashIs(s: string, c: char)
    ensures HashFrom("", 0, 0) == 0
    ensures HashFrom(s + [c], 0, 0) == HashFrom(s, 0, 0) ^ (CharBits(c) << ShiftAt(|s|))
  {
    HashGoesOn(s, c, 0, 0);
  }

  /** dict_key2hash_string and dict_key_cmp_string */
  const STRING_KEYS: Keys<string> := Keys(HashString, (a: string, b: string) => a == b)

  /** dict_key2hash_string */
  method Hash(key: string) returns (total: bv32)
    ensures total == HashFrom(key, 0, 0)
  {
    hide Mix;
    total := 0;
    var shift, i := 0, 0;
    assert key[0..] == key;
    while i < |key|
      invariant 0 <= i <= |key| && 0 <= shift <= 24
      invariant HashFrom(key[i..], total, shift) == HashFrom(key, 0, 0)
    {
      assert key[i..][0] == key[i] && key[i..][1..] == key[i + 1..];
      total := Mix(total, key[i], shift);
      shift := shift + 5;
      if shift > 24 {
        shift := shift - 24;
      }
      i := i + 1;
    }
  }

  class Counter {
    var count: nat
    var sec: nat
    var usec: nat

    constructor ()
      ensures Shows() == Row(0, 0, 0)
    {
      count, sec, usec := 0, 0, 0;
    }

    function Shows(): Row
      reads this
    {
      Row(count, sec, usec)
    }

    /** One more return. */
    method Add(c: Charge)
      modifies this
      ensures Shows() == AddCharge(old(Shows()), c)
    {
      if usec + c.usec > MILLION {
        usec := usec + c.usec - MILLION;
        sec := sec + 1;
      } else {
        usec := usec + c.usec;
      }
      count := count + 1;
      sec := sec + c.sec;
    }
  }

  function Names(ledger: seq<Charge>): set<string> {
    set i | 0 <= i < |ledger| :: ledger[i].name
  }

  lemma NamesAppend(ledger: seq<Charge>, c: Charge)
    ensures Names(ledger + [c]) == Names(ledger) + {c.name}
  {
    var ledger' := ledger + [c];
    assert forall i :: 0 <= i < |ledger| ==> ledger'[i] == ledger[i];
    assert ledger'[|ledger|] == c;
    forall n | n in Names(ledger) ensures n in Names(ledger') {
      var i :| 0 <= i < |ledger| && ledger[i].name == n;
      assert ledger'[i].name == n;
    }
  }

  lemma RowForAppend(ledger: seq<Charge>, c: Charge, name: string)
    ensures RowFor(ledger + [c], name) ==
      if c.name == name then AddCharge(RowFor(ledger, name), c) else RowFor(ledger, name)
  {
    assert (ledger + [c])[..|ledger|] == ledger;
  }

  lemma {:induction false} NoRowYet(ledger: seq<Charge>, name: string)
    requires name !in Names(ledger)
    ensures RowFor(ledger, name) == Row(0, 0, 0)
    decreases |ledger|
  {
    if ledger != [] {
      var init, last := ledger[..|ledger| - 1], ledger[|ledger| - 1];
      assert init + [last] == ledger;
      NamesAppend(init, last);
      NoRowYet(init, name);
    }
  }

  /** One line of the report before formatting. */
  datatype Line = Line(name: string, row: Row)

  function LineNames(lines: seq<Line>): (names: seq<string>)
    ensures |names| == |lines| && forall i :: 0 <= i < |lines| ==> names[i] == lines[i].name
  {
    seq(|lines|, i requires 0 <= i < |lines| => lines[i].name)
  }

  function LineMicros(lines: seq<Line>): (cs: seq<nat>)
    ensures |cs| == |lines| && forall i :: 0 <= i < |lines| ==> cs[i] == lines[i].row.Micros()
  {
    seq(|lines|, i requires 0 <= i < |lines| => lines[i].row.Micros())
  }

  /** One line for each function that returned, with what was accumulated for it. */
  ghost predicate Reports(lines: seq<Line>, ledger: seq<Charge>) {
    && Distinct(LineNames(lines))
    && (forall n :: n in Names(ledger) <==> n in LineNames(lines))
    && (forall i :: 0 <= i < |lines| ==> lines[i].row == RowFor(ledger, lines[i].name))
  }

  lemma {:induction false} MicrosAddUp(lines: seq<Line>, ledger: seq<Charge>)
    requires forall i :: 0 <= i < |lines| ==> lines[i].row == RowFor(ledger, lines[i].name)
    ensures MicrosSum(ledger, LineNames(lines)) == Sum(LineMicros(lines))
    decreases |lines|
  {
    if lines != [] {
      var init := lines[..|lines| - 1];
      MicrosAddUp(init, ledger);
      assert LineNames(lines)[..|lines| - 1] == LineNames(init);
      assert LineMicros(lines)[..|lines| - 1] == LineMicros(init);
    }
  }

  /** Any such report's lines add up to all returns and all the time charged. */
  lemma {:induction false} ReportAddsUp(lines: seq<Line>, ledger: seq<Charge>)
    requires Reports(lines, ledger)
    ensures CountSum(ledger, LineNames(lines)) == |ledger|
    ensures Sum(LineMicros(lines)) == TotalCharged(ledger)
  {
    forall i | 0 <= i < |ledger| ensures ledger[i].name in LineNames(lines) {
      assert ledger[i].name in Names(ledger);
    }
    RowsAddUp(ledger, LineNames(lines));
    MicrosAddUp(lines, ledger);
  }

  /** The percentages printed for the lines of a report sum to within n/2 hundredths of 100.00. */
  lemma {:induction false} ReportPercentages(lines: seq<Line>, ledger: seq<Charge>)
    requires Reports(lines, ledger) && TotalCharged(ledger) > 0
    ensures 20000 - |lines| <= 2 * SharesSum(LineMicros(lines), TotalCharged(ledger)) <= 20000 + |lines|
  {
    hide Reports, SharesSum, TotalCharged;
    ReportAddsUp(lines, ledger);
    PercentagesSum(LineMicros(lines), TotalCharged(ledger));
  }

  lemma SumsNone(ledger: seq<Charge>)
    ensures CountSum(ledger, LineNames([])) == 0 && MicrosSum(ledger, LineNames([])) == 0
  {
  }

  lemma SumsNext(lines: seq<Line>, line: Line, ledger: seq<Charge>)
    ensures CountSum(ledger, LineNames(lines + [line])) ==
      CountSum(ledger, LineNames(lines)) + RowFor(ledger, line.name).count
    ensures MicrosSum(ledger, LineNames(lines + [line])) ==
      MicrosSum(ledger, LineNames(lines)) + RowFor(ledger, line.name).Micros()
  {
    assert LineNames(lines + [line])[..|lines|] == LineNames(lines);
  }

  lemma EachNameOnce<T>(visited: seq<(string, T)>, m: map<string, T>, lines: seq<Line>, ledger: seq<Charge>)
    requires Tabulates(visited, m) && m.Keys == Names(ledger) && |lines| == |visited|
    requires forall k :: 0 <= k < |lines| ==> lines[k] == Line(visited[k].0, RowFor(ledger, visited[k].0))
    ensures Reports(lines, ledger)
  {
    hide RowFor, Names;
    forall n ensures n in m <==> n in LineNames(lines) {
      if n in m {
        var k :| 0 <= k < |visited| && visited[k].0 == n;
        assert LineNames(lines)[k] == n;
      }
    }
  }

  /** The accumulators of output_right and the report's collection of them. */
  class Accounting {
    var table: Dict?<string, Counter>
    ghost var counters: map<string, Counter>
    ghost var ledger: seq<Charge>

    ghost predicate TableOk()
      reads this`table, this`counters, table, if table == null then {} else table.Repr
    {
      if table == null then counters == map[]
      else
        && table.Valid() && table.ks == STRING_KEYS && Tabulates(table.entered, counters)
        && this !in table.Repr && forall n :: n in counters ==> counters[n] !in table.Repr
    }

    /** Each counter shows what its name's returns add up to, and no two names share one. */
    ghost predicate CountersOk()
      reads this`counters, this`ledger, counters.Values
    {
      && (forall n :: n in counters ==> counters[n].Shows() == RowFor(ledger, n))
      && (forall a, b :: a in counters && b in counters && a != b ==> counters[a] != counters[b])
    }

    ghost predicate Valid()
      reads this, table, if table == null then {} else table.Repr, counters.Values
    {
      TableOk() && CountersOk() && counters.Keys == Names(ledger)
    }

    constructor ()
      ensures Valid() && ledger == [] && TableObjects() == {} && counters == map[]
    {
      table, counters, ledger := null, map[], [];
    }

    ghost function TableObjects(): set<object>
      reads this`table, table
    {
      if table == null then {} else table.Repr
    }

    method MakeTable()
      requires TableOk() && table == null
      modifies this`table
      ensures TableOk() && table != null && fresh(table.Repr)
    {
      table := new Dict(STRING_KEYS);
    }

    /** The counter for `name`, made and entered when there is none. */
    method Obtain(name: string) returns (st: Counter)
      requires TableOk() && table != null
      modifies this`counters, table.Repr
      ensures TableOk() && table != null && fresh(table.Repr - old(table.Repr))
      ensures if name in old(counters) then counters == old(counters) && st == counters[name]
        else counters == old(counters)[name := st] && fresh(st) && st.Shows() == Row(0, 0, 0)
    {
      hide Dict.Valid, HashString;
      var found := table.Find(name);
      TabulatedFinds(STRING_KEYS, table.entered, counters, name);
      if found.Some? {
        st := found.value;
      } else {
        st := new Counter();
        Enter(name, st);
      }
    }

    method Enter(name: string, st: Counter)
      requires TableOk() && table != null && name !in counters && st !in table.Repr
      modifies this`counters, table.Repr
      ensures TableOk() && table != null && fresh(table.Repr - old(table.Repr))
      ensures counters == old(counters)[name := st]
    {
      hide Tabulates, Dict.Valid;
      table.Enter(name, st);
      TabulatesAppend(old(table.entered), counters, name, st);
      counters := counters[name := st];
    }

    /** The opt_c branch of output_right for one return. */
    method Return(c: Charge)
      requires Valid()
      modifies this, TableObjects(), counters.Values
      ensures Valid() && ledger == old(ledger) + [c]
      ensures fresh(TableObjects() - old(TableObjects())) && fresh(counters.Values - old(counters.Values))
    {
      hide RowFor, Names, Tabulates, Dict.Valid, STRING_KEYS;
      if table == null {
        MakeTable();
      }
      var st := Obtain(c.name);
      if c.name !in old(counters) {
        NoRowYet(ledger, c.name);
      }
      NamesAppend(ledger, c);
      Record(st, c);
    }

    method Record(st: Counter, c: Charge)
      requires TableOk() && CountersOk() && c.name in counters && counters[c.name] == st
      modifies this`ledger, st
      ensures TableOk() && CountersOk() && ledger == old(ledger) + [c]
    {
      hide RowFor, Names, Tabulates, Dict.Valid, STRING_KEYS;
      st.Add(c);
      forall n | n in counters ensures counters[n].Shows() == RowFor(ledger + [c], n) {
        RowForAppend(ledger, c, n);
      }
      ledger := ledger + [c];
    }

    /** fill_struct on every pair of the table. */
    method Summarise() returns (lines: seq<Line>, totCount: nat, totUsecs: nat)
      requires Valid()
      ensures Reports(lines, ledger) && totCount == |ledger| && totUsecs == TotalCharged(ledger)
    {
      var visited: seq<(string, Counter)> := [];
      if table != null {
        visited := table.ApplyToAll();
        TabulatesPermuted(table.entered, visited, counters);
      }
      lines, totCount, totUsecs := Collect(visited);
      hide Valid;
      EachNameOnce(visited, counters, lines, ledger);
      ReportAddsUp(lines, ledger);
      MicrosAddUp(lines, ledger);
    }

    method Collect(visited: seq<(string, Counter)>) returns (lines: seq<Line>, totCount: nat, totUsecs: nat)
      requires Valid() && Tabulates(visited, counters)
      ensures |lines| == |visited|
      ensures forall k :: 0 <= k < |lines| ==> lines[k] == Line(visited[k].0, RowFor(ledger, visited[k].0))
      ensures totCount == CountSum(ledger, LineNames(lines)) && totUsecs == MicrosSum(ledger, LineNames(lines))
    {
      assert forall i :: 0 <= i < |visited| ==> visited[i].1.Shows() == RowFor(ledger, visited[i].0);
      SumsNone(ledger);
      hide RowFor, Valid, Tabulates, CountSum, MicrosSum;
      lines, totCount, totUsecs := [], 0, 0;
      for i := 0 to |visited|
        invariant |lines| == i
        invariant forall k :: 0 <= k < i ==> lines[k] == Line(visited[k].0, RowFor(ledger, visited[k].0))
        invariant totCount == CountSum(ledger, LineNames(lines))
        invariant totUsecs == MicrosSum(ledger, LineNames(lines))
      {
        var st := visited[i].1;
        SumsNext(lines, Line(visited[i].0, st.Shows()), ledger);
        lines := lines + [Line(visited[i].0, Row(st.count, st.sec, st.usec))];
        totCount := totCount + st.count;
        totUsecs := totUsecs + MILLION * st.sec + st.usec;
      }
    }
  }
}
