/** The chained hash table (dict.c). */
module Dict {
  import opened Base

  const DICTTABLESIZE := 997

  class Entry<K, V> {
    const hash: nat
    const key: K
    const value: V
    var next: Entry?<K, V>

    constructor (hash: nat, key: K, value: V)
      ensures this.hash == hash && this.key == key && this.value == value && next == null
    {
      this.hash, this.key, this.value, next := hash, key, value, null;
    }
  }

  /** How keys are hashed and compared: `same(a, b)` is key_cmp(a, b) == 0. */
  datatype Keys<!K> = Keys(hash: K -> nat, same: (K, K) -> bool) {
    predicate Matches(key: K, stored: K) {
      hash(key) == hash(stored) && same(key, stored)
    }

    function Bucket(key: K): (b: nat)
      ensures b < DICTTABLESIZE
    {
      hash(key) % DICTTABLESIZE
    }
  }

  /** Equal keys hash alike. */
  ghost predicate Agrees<K(!new)>(ks: Keys<K>) {
    forall a, b :: ks.same(a, b) ==> ks.hash(a) == ks.hash(b)
  }

  // --- the map the table stands for ---

  /** The value entered first under a key matching `key`. */
  function First<K, V>(ks: Keys<K>, entered: seq<(K, V)>, key: K): Option<V>
    decreases |entered|
  {
    if entered == [] then None
    else if ks.Matches(key, entered[0].0) then Some(entered[0].1)
    else First(ks, entered[1..], key)
  }

  /** The pairs that belong to bucket `b`, in the order they were entered. */
  function InBucket<K, V>(ks: Keys<K>, entered: seq<(K, V)>, b: nat): seq<(K, V)>
    decreases |entered|
  {
    if entered == [] then []
    else (if ks.Bucket(entered[0].0) == b then [entered[0]] else []) + InBucket(ks, entered[1..], b)
  }

  function Buckets<K, V>(ks: Keys<K>, entered: seq<(K, V)>): (buckets: seq<seq<(K, V)>>)
    ensures |buckets| == DICTTABLESIZE
    ensures forall b :: 0 <= b < DICTTABLESIZE ==> buckets[b] == InBucket(ks, entered, b)
  {
    seq(DICTTABLESIZE, b requires 0 <= b < DICTTABLESIZE => InBucket(ks, entered, b))
  }

  function Concat<T>(parts: seq<seq<T>>): seq<T>
    decreases |parts|
  {
    if parts == [] then [] else Concat(parts[..|parts| - 1]) + parts[|parts| - 1]
  }

  /** The pairs in the order dict_apply_to_all meets them. */
  function Visits<K, V>(ks: Keys<K>, entered: seq<(K, V)>): seq<(K, V)> {
    Concat(Buckets(ks, entered))
  }

  /** Searching only the key's own bucket finds what searching everything finds. */
  lemma {:induction false} FirstInBucket<K, V>(ks: Keys<K>, entered: seq<(K, V)>, key: K)
    ensures First(ks, InBucket(ks, entered, ks.Bucket(key)), key) == First(ks, entered, key)
    decreases |entered|
  {
    if entered != [] {
      FirstInBucket(ks, entered[1..], key);
      var rest := InBucket(ks, entered[1..], ks.Bucket(key));
      if ks.Bucket(entered[0].0) == ks.Bucket(key) {
        assert InBucket(ks, entered, ks.Bucket(key)) == [entered[0]] + rest;
        assert ([entered[0]] + rest)[1..] == rest;
      } else {
        assert InBucket(ks, entered, ks.Bucket(key)) == rest;
      }
    }
  }

  /** With a hash that agrees with the comparison, the first entry for an equal key wins. */
  lemma {:induction false} FirstEntryWins<K(!new), V(!new)>(ks: Keys<K>, entered: seq<(K, V)>, key: K)
    requires Agrees(ks)
    ensures First(ks, entered, key) == None <==> forall i :: 0 <= i < |entered| ==> !ks.same(key, entered[i].0)
    ensures forall i | 0 <= i < |entered| && ks.same(key, entered[i].0) ::
      (forall j :: 0 <= j < i ==> !ks.same(key, entered[j].0)) ==>
        First(ks, entered, key) == Some(entered[i].1)
    decreases |entered|
  {
    if entered != [] {
      FirstEntryWins(ks, entered[1..], key);
      assert forall i :: 0 <= i < |entered[1..]| ==> entered[1..][i] == entered[i + 1];
    }
  }

  lemma {:induction false} InBucketAppend<K, V>(ks: Keys<K>, entered: seq<(K, V)>, e: (K, V), b: nat)
    ensures InBucket(ks, entered + [e], b) ==
      InBucket(ks, entered, b) + if ks.Bucket(e.0) == b then [e] else []
    decreases |entered|
  {
    if entered != [] {
      assert (entered + [e])[1..] == entered[1..] + [e];
      InBucketAppend(ks, entered[1..], e, b);
    }
  }

  /** Adding one element to the part numbered `t` adds it once to the concatenation. */
  lemma {:induction false} ConcatAddOne<T>(parts: seq<seq<T>>, parts': seq<seq<T>>, t: nat, e: T)
    requires |parts'| == |parts|
    requires forall b :: 0 <= b < |parts| ==> parts'[b] == parts[b] + if b == t then [e] else []
    ensures multiset(Concat(parts')) == multiset(Concat(parts)) + multiset(if t < |parts| then [e] else [])
    decreases |parts|
  {
    if parts != [] {
      var n := |parts| - 1;
      ConcatAddOne(parts[..n], parts'[..n], t, e);
      AddOne(Concat(parts[..n]), Concat(parts'[..n]), parts[n], e, t < n, t == n);
    }
  }

  lemma AddOne<T>(before: seq<T>, before': seq<T>, last: seq<T>, e: T, inBefore: bool, inLast: bool)
    requires !(inBefore && inLast)
    requires multiset(before') == multiset(before) + multiset(if inBefore then [e] else [])
    ensures multiset(before' + (last + if inLast then [e] else [])) ==
      multiset(before + last) + multiset(if inBefore || inLast then [e] else [])
  {
  }

  lemma {:induction false} NoVisits<T>(parts: seq<seq<T>>)
    requires forall b :: 0 <= b < |parts| ==> parts[b] == []
    ensures Concat(parts) == []
    decreases |parts|
  {
    if parts != [] {
      NoVisits(parts[..|parts| - 1]);
    }
  }

  /** Every entered pair is visited exactly once. */
  lemma {:induction false} VisitsEachOnce<K, V>(ks: Keys<K>, entered: seq<(K, V)>)
    ensures multiset(Visits(ks, entered)) == multiset(entered)
    decreases |entered|
  {
    if entered == [] {
      NoVisits(Buckets(ks, entered));
    } else {
      var before, e := entered[..|entered| - 1], entered[|entered| - 1];
      assert before + [e] == entered;
      VisitsEachOnce(ks, before);
      forall b | 0 <= b < DICTTABLESIZE
        ensures Buckets(ks, entered)[b] == Buckets(ks, before)[b] + if b == ks.Bucket(e.0) then [e] else []
      {
        InBucketAppend(ks, before, e, b);
      }
      ConcatAddOne(Buckets(ks, before), Buckets(ks, entered), ks.Bucket(e.0), e);
    }
  }

  // --- tables with one pair for each key ---

  /** Keys are compared by equality. */
  ghost predicate Exact<K(!new)>(ks: Keys<K>) {
    forall a, b :: ks.same(a, b) <==> a == b
  }

  /** The pairs are those of the map `m`, each key once. */
  ghost predicate Tabulates<K, V>(pairs: seq<(K, V)>, m: map<K, V>) {
    && (forall i :: 0 <= i < |pairs| ==> pairs[i].0 in m && m[pairs[i].0] == pairs[i].1)
    && (forall a :: a in m ==> exists i :: 0 <= i < |pairs| && pairs[i].0 == a)
    && (forall i, j :: 0 <= i < j < |pairs| ==> pairs[i].0 != pairs[j].0)
  }

  lemma {:induction false} FirstAmong<K(!new), V>(ks: Keys<K>, pairs: seq<(K, V)>, a: K)
    requires Exact(ks)
    ensures match First(ks, pairs, a)
      case Some(b) => exists i :: 0 <= i < |pairs| && pairs[i] == (a, b)
      case None => forall i :: 0 <= i < |pairs| ==> pairs[i].0 != a
    decreases |pairs|
  {
    if pairs != [] {
      if pairs[0].0 == a {
        assert pairs[0] == (a, pairs[0].1);
      } else {
        FirstAmong(ks, pairs[1..], a);
        match First(ks, pairs[1..], a) {
          case Some(b) =>
            var i :| 0 <= i < |pairs[1..]| && pairs[1..][i] == (a, b);
            assert pairs[i + 1] == (a, b);
          case None =>
            forall i | 0 <= i < |pairs| ensures pairs[i].0 != a {
              assert i > 0 ==> pairs[i] == pairs[1..][i - 1];
            }
        }
      }
    }
  }

  /** Searching such a table is looking its key up. */
  lemma TabulatedFinds<K(!new), V>(ks: Keys<K>, pairs: seq<(K, V)>, m: map<K, V>, a: K)
    requires Exact(ks) && Tabulates(pairs, m)
    ensures First(ks, pairs, a) == if a in m then Some(m[a]) else None
  {
    FirstAmong(ks, pairs, a);
  }

  lemma TabulatesAppend<K, V>(pairs: seq<(K, V)>, m: map<K, V>, a: K, b: V)
    requires Tabulates(pairs, m) && a !in m
    ensures Tabulates(pairs + [(a, b)], m[a := b])
  {
    var pairs', m' := pairs + [(a, b)], m[a := b];
    forall x | x in m' ensures exists i :: 0 <= i < |pairs'| && pairs'[i].0 == x {
      if x == a {
        assert pairs'[|pairs|].0 == x;
      } else {
        var i :| 0 <= i < |pairs| && pairs[i].0 == x;
        assert pairs'[i].0 == x;
      }
    }
  }

  lemma OccursTwice<T>(s: seq<T>, i: nat, j: nat)
    requires i < j < |s| && s[i] == s[j]
    ensures multiset(s)[s[i]] >= 2
  {
    assert s == s[..i] + [s[i]] + s[i + 1..j] + [s[j]] + s[j + 1..];
  }

  lemma OccursOnce<T>(s: seq<T>, i: nat)
    requires i < |s| && forall j :: 0 <= j < |s| && j != i ==> s[j] != s[i]
    ensures multiset(s)[s[i]] == 1
  {
    assert s == s[..i] + [s[i]] + s[i + 1..];
    assert s[i] !in s[..i] && s[i] !in s[i + 1..];
  }

  /** Any order in which each pair comes exactly once tabulates the same map. */
  lemma TabulatesPermuted<K, V>(pairs: seq<(K, V)>, visited: seq<(K, V)>, m: map<K, V>)
    requires Tabulates(pairs, m) && multiset(visited) == multiset(pairs)
    ensures Tabulates(visited, m)
  {
    forall i | 0 <= i < |visited| ensures visited[i] in pairs {
      assert visited[i] in multiset(visited);
    }
    forall a | a in m ensures exists i :: 0 <= i < |visited| && visited[i].0 == a {
      var i :| 0 <= i < |pairs| && pairs[i].0 == a;
      assert pairs[i] in multiset(pairs);
      assert pairs[i] in visited;
    }
    forall i, j | 0 <= i < j < |visited| ensures visited[i].0 != visited[j].0 {
      if visited[i].0 == visited[j].0 {
        assert visited[i] == visited[j];
        OccursTwice(visited, i, j);
        var n :| 0 <= n < |pairs| && pairs[n] == visited[i];
        OccursOnce(pairs, n);
      }
    }
  }

  // --- the table ---

  function Pairs<K, V>(chain: seq<Entry<K, V>>): (pairs: seq<(K, V)>)
    ensures |pairs| == |chain|
  {
    seq(|chain|, i requires 0 <= i < |chain| => (chain[i].key, chain[i].value))
  }

  class Dict<K, V> {
    const ks: Keys<K>
    const buckets: array<Entry?<K, V>>
    ghost var chains: seq<seq<Entry<K, V>>>
    ghost var entered: seq<(K, V)>
    ghost var Repr: set<object>

    ghost predicate Valid()
      reads this, Repr
      ensures Valid() ==> this in Repr && buckets in Repr
    {
      && this in Repr && buckets in Repr
      && buckets.Length == DICTTABLESIZE == |chains|
      && Owned()
      && (forall b :: 0 <= b < DICTTABLESIZE ==> Linked(b))
      && Faithful(ks, chains, entered)
      && Distinct(chains)
    }

    static ghost predicate Distinct(chains: seq<seq<Entry<K, V>>>) {
      forall b, i, c, j | 0 <= b < |chains| && 0 <= i < |chains[b]| && 0 <= c < |chains| && 0 <= j < |chains[c]| ::
        chains[b][i] == chains[c][j] ==> b == c && i == j
    }

    static lemma DistinctAppend(chains: seq<seq<Entry<K, V>>>, b: nat, e: Entry<K, V>)
      requires Distinct(chains) && b < |chains|
      requires forall c, i :: 0 <= c < |chains| && 0 <= i < |chains[c]| ==> chains[c][i] != e
      ensures Distinct(chains[b := chains[b] + [e]])
    {
    }

    /** Bucket `b` holds the linked entries of its chain, the last one ending it. */
    ghost predicate Linked(b: nat)
      requires b < |chains| && buckets.Length == |chains|
      reads this`chains, buckets, chains[b]
    {
      var chain := chains[b];
      && buckets[b] == At(chain, 0)
      && forall i :: 0 <= i < |chain| ==>
           chain[i].next == At(chain, i + 1) && chain[i].hash == ks.hash(chain[i].key)
    }

    static ghost function At(chain: seq<Entry<K, V>>, i: nat): Entry?<K, V> {
      if i < |chain| then chain[i] else null
    }

    constructor (ks: Keys<K>)
      ensures Valid() && fresh(Repr) && entered == [] && this.ks == ks
    {
      this.ks := ks;
      buckets := new Entry?<K, V>[DICTTABLESIZE](_ => null);
      chains := seq(DICTTABLESIZE, _ => []);
      entered := [];
      new;
      Repr := {this, buckets};
    }

    ghost predicate Owned()
      reads this
    {
      forall b, i :: 0 <= b < |chains| && 0 <= i < |chains[b]| ==> chains[b][i] in Repr
    }

    static ghost predicate Faithful(ks: Keys<K>, chains: seq<seq<Entry<K, V>>>, entered: seq<(K, V)>) {
      forall b :: 0 <= b < |chains| ==> Pairs(chains[b]) == InBucket(ks, entered, b)
    }

    static lemma FaithfulAppend(ks: Keys<K>, chains: seq<seq<Entry<K, V>>>, entered: seq<(K, V)>, e: Entry<K, V>)
      requires |chains| == DICTTABLESIZE && Faithful(ks, chains, entered)
      ensures var b := ks.Bucket(e.key);
        Faithful(ks, chains[b := chains[b] + [e]], entered + [(e.key, e.value)])
    {
      var b := ks.Bucket(e.key);
      forall c | 0 <= c < DICTTABLESIZE
        ensures Pairs(chains[b := chains[b] + [e]][c]) == InBucket(ks, entered + [(e.key, e.value)], c)
      {
        InBucketAppend(ks, entered, (e.key, e.value), c);
        assert Pairs(chains[c]) == InBucket(ks, entered, c);
      }
    }

    /** dict_enter */
    method Enter(key: K, value: V)
      requires Valid()
      modifies Repr
      ensures Valid() && fresh(Repr - old(Repr))
      ensures entered == old(entered) + [(key, value)]
    {
      hide Faithful, Distinct, Linked;
      var hash := ks.hash(key);
      var b := hash % DICTTABLESIZE;
      var newentry := new Entry(hash, key, value);
      DistinctAppend(chains, b, newentry);
      FaithfulAppend(ks, chains, entered, newentry);
      Append(b, newentry);
      entered := entered + [(key, value)];
      Repr := Repr + {newentry};
    }

    /** Walks to the end of a bucket's chain and hangs `newentry` there. */
    method Append(b: nat, newentry: Entry<K, V>)
      requires Valid() && b < DICTTABLESIZE && newentry !in Repr && newentry.next == null
      requires newentry.hash == ks.hash(newentry.key)
      modifies buckets, this`chains, set i | 0 <= i < |chains[b]| :: chains[b][i]
      ensures chains == old(chains)[b := old(chains[b]) + [newentry]]
      ensures forall c :: 0 <= c < DICTTABLESIZE ==> Linked(c)
    {
      ghost var chain := chains[b];
      var entry := buckets[b];
      assert Linked(b);
      ghost var i := 0;
      while entry != null && entry.next != null
        invariant 0 <= i <= |chain| && entry == At(chain, i)
        invariant i == |chain| ==> chain == []
        decreases |chain| - i
      {
        entry := entry.next;
        i := i + 1;
      }
      if entry != null {
        entry.next := newentry;
      } else {
        buckets[b] := newentry;
      }
      chains := chains[b := chain + [newentry]];
      forall c | 0 <= c < DICTTABLESIZE ensures Linked(c) {
        assert old(Linked(c));
      }
    }

    /** dict_find_entry */
    method Find(key: K) returns (r: Option<V>)
      requires Valid()
      ensures r == First(ks, entered, key)
    {
      var hash := ks.hash(key);
      var b := hash % DICTTABLESIZE;
      ghost var pairs := Pairs(chains[b]);
      var entry := buckets[b];
      assert Linked(b);
      ghost var i := 0;
      FirstInBucket(ks, entered, key);
      while entry != null
        invariant 0 <= i <= |pairs| && entry == At(chains[b], i)
        invariant First(ks, pairs[i..], key) == First(ks, pairs, key)
        decreases |pairs| - i
      {
        assert pairs[i..][0] == (entry.key, entry.value) && pairs[i..][1..] == pairs[i + 1..];
        if hash == entry.hash && ks.same(key, entry.key) {
          break;
        }
        entry := entry.next;
        i := i + 1;
      }
      r := if entry != null then Some(entry.value) else None;
    }

    /** dict_apply_to_all, with the pairs handed back in the order the callback receives them. */
    method ApplyToAll() returns (visited: seq<(K, V)>)
      requires Valid()
      ensures visited == Visits(ks, entered)
      ensures multiset(visited) == multiset(entered)
    {
      ghost var parts := Buckets(ks, entered);
      visited := [];
      for b := 0 to DICTTABLESIZE
        invariant visited == Concat(parts[..b])
      {
        var chain := WalkChain(b);
        assert parts[..b + 1][..b] == parts[..b];
        visited := visited + chain;
      }
      assert parts[..DICTTABLESIZE] == parts;
      VisitsEachOnce(ks, entered);
    }

    /** The inner loop of dict_apply_to_all. */
    method WalkChain(b: nat) returns (visited: seq<(K, V)>)
      requires Valid() && b < DICTTABLESIZE
      ensures visited == InBucket(ks, entered, b)
    {
      visited := [];
      var entry := buckets[b];
      assert Linked(b);
      ghost var i := 0;
      while entry != null
        invariant 0 <= i <= |chains[b]| && entry == At(chains[b], i)
        invariant visited == Pairs(chains[b])[..i]
        decreases |chains[b]| - i
      {
        visited := visited + [(entry.key, entry.value)];
        entry := entry.next;
        i := i + 1;
      }
    }
  }
}
