/** Cuckoo hashing over two tables: a displacement chain loses no entry, so a lookup needs at most two slots. */
module Cuckoo {
  import opened Bytes
  import opened Slots
  import opened Unchained
  import opened Grouping

  type Table = seq<Option<Info>>

  const MAX_DISPLACEMENTS: nat := 200

  const MAX_REHASH_ATTEMPTS: nat := 5

  function Home(mix: int -> nat, cap: nat, key: int): (h: nat)
    ensures cap > 0 ==> h < cap
  {
    if cap == 0 then 0 else mix(key) % cap
  }

  /** Every entry sits in its home slot. */
  ghost predicate Homed(mix: int -> nat, t: Table) {
    forall s | 0 <= s < |t| && t[s].Some? :: Home(mix, |t|, t[s].value.key) == s
  }

  lemma PutHomed(mix: int -> nat, t: Table, x: Info)
    requires Homed(mix, t) && t != []
    ensures Homed(mix, t[Home(mix, |t|, x.key) := Some(x)])
  {
    hide Home;
  }

  // ---------- displacement as a function of the tables ----------

  datatype Placement = Placement(ok: bool, t1: Table, t2: Table)

  /** `n` rounds of trying the carried entry's first home, and then the evicted entry's second. */
  function Displaced(mix1: int -> nat, mix2: int -> nat, t1: Table, t2: Table, x: Info, n: nat): (p: Placement)
    requires |t1| == |t2| > 0
    ensures |p.t1| == |p.t2| == |t1|
    decreases n, |t1|
  {
    if n == 0 then Placement(false, t1, t2) else
      var h1 := Home(mix1, |t1|, x.key);
      var u1 := t1[h1 := Some(x)];
      if t1[h1].None? then Placement(true, u1, t2) else
        var y := t1[h1].value;
        var h2 := Home(mix2, |t2|, y.key);
        var u2 := t2[h2 := Some(y)];
        if t2[h2].None? then Placement(true, u1, u2) else Displaced(mix1, mix2, u1, u2, t2[h2].value, n - 1)
  }

  lemma DisplacedRound(mix1: int -> nat, mix2: int -> nat, t1: Table, t2: Table, x: Info, n: nat, less: nat)
    requires |t1| == |t2| > 0 && n == less + 1
    ensures var h1 := Home(mix1, |t1|, x.key);
      Displaced(mix1, mix2, t1, t2, x, n) == if t1[h1].None? then Placement(true, t1[h1 := Some(x)], t2) else
        var y := t1[h1].value;
        var h2 := Home(mix2, |t2|, y.key);
        if t2[h2].None? then Placement(true, t1[h1 := Some(x)], t2[h2 := Some(y)])
        else Displaced(mix1, mix2, t1[h1 := Some(x)], t2[h2 := Some(y)], t2[h2].value, less)
  {
  }

  lemma {:induction false} NotDisplaced(mix1: int -> nat, mix2: int -> nat, t1: Table, t2: Table, x: Info)
    requires |t1| == |t2| > 0
    ensures Displaced(mix1, mix2, t1, t2, x, 0) == Placement(false, t1, t2)
  {
  }

  /** What is carried at the start of each round, if the rounds before found both homes taken. */
  ghost predicate Evictions(mix1: int -> nat, mix2: int -> nat, t1: Table, t2: Table, xs: seq<Info>)
    requires |t1| == |t2| > 0
    decreases |xs|
  {
    |xs| > 1 ==>
      var h1 := Home(mix1, |t1|, xs[0].key);
      && t1[h1].Some?
      && var h2 := Home(mix2, |t2|, t1[h1].value.key);
         && t2[h2] == Some(xs[1])
         && Evictions(mix1, mix2, t1[h1 := Some(xs[0])], t2[h2 := Some(t1[h1].value)], xs[1..])
  }

  /** `n` rounds in a row find both homes taken. */
  ghost predicate TakenFor(mix1: int -> nat, mix2: int -> nat, t1: Table, t2: Table, x: Info, n: nat)
    requires |t1| == |t2| > 0
  {
    exists xs: seq<Info> :: |xs| == n + 1 && xs[0] == x && Evictions(mix1, mix2, t1, t2, xs)
  }

  /** An insertion fails exactly when `n` rounds in a row find both homes taken. */
  lemma {:induction false} FailsExactly(mix1: int -> nat, mix2: int -> nat, t1: Table, t2: Table, x: Info, n: nat)
    requires |t1| == |t2| > 0
    ensures !Displaced(mix1, mix2, t1, t2, x, n).ok <==> TakenFor(mix1, mix2, t1, t2, x, n)
    decreases n
  {
    hide Home;
    if n == 0 {
      assert Evictions(mix1, mix2, t1, t2, [x]);
    } else {
      var h1 := Home(mix1, |t1|, x.key);
      if t1[h1].Some? {
        var y := t1[h1].value;
        var h2 := Home(mix2, |t2|, y.key);
        if t2[h2].Some? {
          var u1, u2, z := t1[h1 := Some(x)], t2[h2 := Some(y)], t2[h2].value;
          FailsExactly(mix1, mix2, u1, u2, z, n - 1);
          if !Displaced(mix1, mix2, t1, t2, x, n).ok {
            var zs: seq<Info> :| |zs| == n && zs[0] == z && Evictions(mix1, mix2, u1, u2, zs);
            var xs := [x] + zs;
            assert xs[1..] == zs;
            assert Evictions(mix1, mix2, t1, t2, xs);
          }
        }
      }
    }
  }

  /** Inserting the entries from the `i`-th on. */
  function AllPlaced(mix1: int -> nat, mix2: int -> nat, t1: Table, t2: Table, infos: seq<Info>, i: nat): bool
    requires |t1| == |t2| > 0 && i <= |infos|
    decreases |infos| - i
  {
    i < |infos| ==>
      var p := Displaced(mix1, mix2, t1, t2, infos[i], MAX_DISPLACEMENTS);
      p.ok && AllPlaced(mix1, mix2, p.t1, p.t2, infos, i + 1)
  }

  /** `ceil(n / 0.45)`, at least 1. */
  function InitialCapacity(n: nat): (c: nat)
    ensures c > 0
  {
    var c := (20 * n + 8) / 9;
    if c == 0 then 1 else c
  }

  /** The capacity of an attempt, counted from 0. */
  function Capacity(n: nat, attempt: nat): (cap: nat)
    ensures cap > 0
    decreases attempt, n
  {
    if attempt == 0 then InitialCapacity(n) else 2 * Capacity(n, attempt - 1) + 1
  }

  /** Fresh tables of that capacity take all entries. */
  predicate Fits(mix1: int -> nat, mix2: int -> nat, infos: seq<Info>, cap: nat)
    requires cap > 0
  {
    AllPlaced(mix1, mix2, Vacant(cap), Vacant(cap), infos, 0)
  }

  /** One of the five attempts succeeds. */
  ghost predicate SomeFits(mix1: int -> nat, mix2: int -> nat, infos: seq<Info>) {
    exists attempt: nat :: attempt < MAX_REHASH_ATTEMPTS && Fits(mix1, mix2, infos, Capacity(|infos|, attempt))
  }

  lemma BagSnoc(infos: seq<Info>, i: nat, next: nat)
    requires i < |infos| && next == i + 1
    ensures multiset(infos[..next]) == multiset(infos[..i]) + multiset{infos[i]}
  {
    assert infos[..next] == infos[..i] + [infos[i]];
  }

  lemma {:induction false} AllPlacedNext(mix1: int -> nat, mix2: int -> nat, t1: Table, t2: Table, infos: seq<Info>,
                                         i: nat, x: Info, next: nat)
    requires |t1| == |t2| > 0 && i < |infos| && x == infos[i] && next == i + 1
    ensures var p := Displaced(mix1, mix2, t1, t2, x, MAX_DISPLACEMENTS);
      AllPlaced(mix1, mix2, t1, t2, infos, i) <==> p.ok && AllPlaced(mix1, mix2, p.t1, p.t2, infos, next)
  {
  }

  lemma {:induction false} AllPlacedDone(mix1: int -> nat, mix2: int -> nat, t1: Table, t2: Table, infos: seq<Info>)
    requires |t1| == |t2| > 0
    ensures AllPlaced(mix1, mix2, t1, t2, infos, |infos|)
  {
  }

  class CuckooBackend {
    const mix1: int -> nat
    const mix2: int -> nat
    var storage: seq<Entry>
    var table1: Table
    var table2: Table
    var capacity: nat

    /** Both tables have `capacity` slots and every entry is in one of its two homes. */
    ghost predicate Valid()
      reads this`table1, this`table2, this`capacity
    {
      && |table1| == |table2| == capacity
      && Homed(mix1, table1) && Homed(mix2, table2)
    }

    ghost function Both(): multiset<Info>
      reads this`table1, this`table2
    {
      Items(table1) + Items(table2)
    }

    ghost predicate Holds(es: seq<Entry>)
      reads this`table1, this`table2, this`capacity
    {
      Valid() && if capacity == 0 then es == [] else Indexes(Both(), es)
    }

    constructor (mix1: int -> nat, mix2: int -> nat)
      ensures this.mix1 == mix1 && this.mix2 == mix2 && storage == [] && Holds([])
    {
      this.mix1, this.mix2 := mix1, mix2;
      storage, table1, table2, capacity := [], [], [], 0;
    }

    /** One round: the carried entry takes its first home, and an entry evicted there its second. */
    method Round(x: Info, ghost left: nat, ghost all: multiset<Info>) returns (placed: bool, out: Info)
      requires Valid() && capacity > 0 && left > 0 && Both() + multiset{x} == all
      modifies this`table1, this`table2
      ensures Valid() && |table1| == |table2| == |old(table1)| == |old(table2)| == capacity
      ensures Both() + (if placed then multiset{} else multiset{out}) == all
      ensures Displaced(mix1, mix2, old(table1), old(table2), x, left) ==
        if placed then Placement(true, table1, table2) else Displaced(mix1, mix2, table1, table2, out, left - 1)
    {
      hide Items, Homed, Home, Displaced;
      ghost var less := left - 1;
      DisplacedRound(mix1, mix2, table1, table2, x, left, less);
      var pos1 := Home(mix1, capacity, x.key);
      PutHomed(mix1, table1, x);
      PutItems(table1, pos1, x, Items(table2), all);
      if table1[pos1].None? {
        table1 := table1[pos1 := Some(x)];
        return true, x;
      }
      var evicted := table1[pos1].value;
      table1 := table1[pos1 := Some(x)];

      var pos2 := Home(mix2, capacity, evicted.key);
      PutHomed(mix2, table2, evicted);
      PutItems(table2, pos2, evicted, Items(table1), all);
      placed, out := table2[pos2].None?, evicted;
      if !placed { out := table2[pos2].value; }
      table2 := table2[pos2 := Some(evicted)];
    }

    /** Tables and carried entry together keep exactly the old entries and the new one, whether or not a place is
        found. */
    method InsertKeyInfo(info: Info) returns (ok: bool, ghost carried: Info)
      requires Valid() && capacity > 0
      modifies this`table1, this`table2
      ensures Valid() && |table1| == |table2| == |old(table1)| == |old(table2)| == capacity
      ensures Displaced(mix1, mix2, old(table1), old(table2), info, MAX_DISPLACEMENTS) == Placement(ok, table1, table2)
      ensures !ok <==> TakenFor(mix1, mix2, old(table1), old(table2), info, 200)
      ensures Both() + (if ok then multiset{} else multiset{carried}) == old(Both()) + multiset{info}
    {
      FailsExactly(mix1, mix2, table1, table2, info, MAX_DISPLACEMENTS);
      hide TakenFor, Displaced, Homed, Items;
      ok, carried := Rounds(info);
    }

    method Rounds(info: Info) returns (ok: bool, ghost carried: Info)
      requires Valid() && capacity > 0
      modifies this`table1, this`table2
      ensures Valid() && |table1| == |table2| == |old(table1)| == |old(table2)| == capacity
      ensures Displaced(mix1, mix2, old(table1), old(table2), info, MAX_DISPLACEMENTS) == Placement(ok, table1, table2)
      ensures Both() + (if ok then multiset{} else multiset{carried}) == old(Both()) + multiset{info}
    {
      hide *;
      BothSized();
      var x := info;
      ghost var all, p := Both() + multiset{info}, Displaced(mix1, mix2, table1, table2, info, MAX_DISPLACEMENTS);
      ghost var left := MAX_DISPLACEMENTS;
      for displacements := 0 to MAX_DISPLACEMENTS
        invariant Valid() && Both() + multiset{x} == all && left == MAX_DISPLACEMENTS - displacements
        invariant |table1| == |table2| == capacity && Displaced(mix1, mix2, table1, table2, x, left) == p
      {
        ok, x := Round(x, left, all);
        if ok { return true, x; }
        left := left - 1;
      }
      NotDisplaced(mix1, mix2, table1, table2, x);
      return false, x;
    }

    lemma BothSized()
      requires Valid()
      ensures |table1| == |table2| == capacity
    {
    }

    method InsertAll(infos: seq<Info>) returns (ok: bool)
      requires capacity > 0 && table1 == table2 == Vacant(capacity)
      modifies this`table1, this`table2
      ensures Valid() && (ok ==> Both() == multiset(infos))
      ensures ok <==> Fits(mix1, mix2, infos, capacity)
    {
      hide *;
      Fresh(infos);
      assert infos[..0] == [];
      ghost var fits := Fits(mix1, mix2, infos, capacity);
      ghost var done := multiset(infos[..0]);
      ok := true;
      for i := 0 to |infos|
        invariant ok && Valid() && Both() == done == multiset(infos[..i]) && |table1| == |table2| == capacity
        invariant fits == AllPlaced(mix1, mix2, table1, table2, infos, i)
      {
        var x, next := infos[i], i + 1;
        AllPlacedNext(mix1, mix2, table1, table2, infos, i, x, next);
        BagSnoc(infos, i, next);
        done := done + multiset{x};
        ok := InsertOne(x, done);
        if !ok { return false; }
      }
      AllPlacedDone(mix1, mix2, table1, table2, infos);
      assert infos[..|infos|] == infos;
    }

    method InsertOne(x: Info, ghost all: multiset<Info>) returns (ok: bool)
      requires Valid() && capacity > 0 && Both() + multiset{x} == all
      modifies this`table1, this`table2
      ensures Valid() && |table1| == |table2| == |old(table1)| == |old(table2)| == capacity
      ensures Displaced(mix1, mix2, old(table1), old(table2), x, MAX_DISPLACEMENTS) == Placement(ok, table1, table2)
      ensures ok ==> Both() == all
    {
      hide *;
      ghost var carried;
      ok, carried := InsertKeyInfo(x);
      assert ok ==> Both() + multiset{} == Both();
    }

    lemma {:induction false} Fresh(infos: seq<Info>)
      requires capacity > 0 && table1 == table2 == Vacant(capacity)
      ensures |table1| == |table2| == capacity && Valid() && Both() == multiset{}
      ensures Fits(mix1, mix2, infos, capacity) == AllPlaced(mix1, mix2, table1, table2, infos, 0)
    {
      hide AllPlaced, Home;
      NoItems<Info>(capacity);
    }

    /** Up to five capacities are tried; `ok` is false where the original throws. */
    method BuildFromEntries(ps: seq<(i32, nat)>) returns (ok: bool)
      modifies this
      ensures ok ==> Holds(Narrowed(ps))
      ensures ok <==> ps == [] || SomeFits(mix1, mix2, Index(Narrowed(ps)))
      ensures storage == if ps == [] then [] else old(storage) + Storage(Narrowed(ps))
    {
      hide *;
      if ps == [] {
        storage, table1, table2, capacity := [], [], [], 0;
        EmptyHolds();
        return true;
      }
      var infos;
      infos, storage := BuildIndex(ps, storage);
      ok := Place(infos);
      if ok { BuiltHolds(infos, Narrowed(ps)); }
    }

    method Place(infos: seq<Info>) returns (ok: bool)
      modifies this`table1, this`table2, this`capacity
      ensures ok ==> Valid() && capacity > 0 && Both() == multiset(infos)
      ensures ok <==> SomeFits(mix1, mix2, infos)
    {
      hide Valid, Items, Fits;
      var attempt := 0;
      while attempt < MAX_REHASH_ATTEMPTS
        invariant attempt > 0 ==> capacity == Capacity(|infos|, attempt - 1)
        invariant forall a: nat | a < attempt :: !Fits(mix1, mix2, infos, Capacity(|infos|, a))
        decreases MAX_REHASH_ATTEMPTS - attempt
      {
        capacity := if attempt == 0 then InitialCapacity(|infos|) else capacity * 2 + 1;
        table1 := Vacant(capacity);
        table2 := Vacant(capacity);
        assert capacity == Capacity(|infos|, attempt);
        ok := InsertAll(infos);
        if ok { return true; }
        attempt := attempt + 1;
      }
      return false;
    }

    lemma EmptyHolds()
      requires capacity == 0 && table1 == table2 == []
      ensures Holds(Narrowed([]))
    {
    }

    lemma BuiltHolds(infos: seq<Info>, es: seq<Entry>)
      requires Valid() && capacity > 0 && Both() == multiset(infos) && infos == Index(es)
      ensures Holds(es)
    {
      hide Items, Homed;
    }

    /** At most two slots are looked at; a count of 0 means there is no such key. */
    method Probe(k: i32, ghost es: seq<Entry>) returns (begin: nat, count: nat)
      requires Holds(es)
      ensures count == |Matching(es, k)|
      ensures if count > 0 then Info(k, begin, count) in Index(es) else begin == 0
    {
      if capacity == 0 {
        assert Matching([], k) == [];
        return 0, 0;
      }
      hide *;
      Sizes(es);
      var pos1: nat := Home(mix1, capacity, k);
      if table1[pos1].Some? && table1[pos1].value.key == k {
        InFirst(pos1);
        Present(es, table1[pos1].value, k);
        return table1[pos1].value.start, table1[pos1].value.count;
      }
      var pos2: nat := Home(mix2, capacity, k);
      if table2[pos2].Some? && table2[pos2].value.key == k {
        InSecond(pos2);
        Present(es, table2[pos2].value, k);
        return table2[pos2].value.start, table2[pos2].value.count;
      }
      Absent(es, k, pos1, pos2);
      return 0, 0;
    }

    lemma Sizes(es: seq<Entry>)
      requires Holds(es)
      ensures |table1| == |table2| == capacity && (capacity > 0 ==> Valid() && Indexes(Both(), es))
    {
      hide Indexes, Items, Homed;
    }

    lemma InFirst(s: nat)
      requires s < |table1| && table1[s].Some?
      ensures table1[s].value in Both()
    {
      ItemsIn(table1, table1[s].value);
    }

    lemma InSecond(s: nat)
      requires s < |table2| && table2[s].Some?
      ensures table2[s].value in Both()
    {
      ItemsIn(table2, table2[s].value);
    }

    lemma {:induction false} Present(es: seq<Entry>, x: Info, k: i32)
      requires Indexes(Both(), es) && x in Both() && x.key == k
      ensures x in Index(es) && x.count == |Matching(es, k)| > 0
    {
      hide Matching, Items, Index;
      FoundKey(Both(), es, x);
    }

    lemma {:induction false} Absent(es: seq<Entry>, k: i32, s1: nat, s2: nat)
      requires Valid() && capacity > 0 && Indexes(Both(), es)
      requires s1 == Home(mix1, capacity, k) && s2 == Home(mix2, capacity, k) && s1 < |table1| && s2 < |table2|
      requires table1[s1].None? || table1[s1].value.key != k
      requires table2[s2].None? || table2[s2].value.key != k
      ensures Matching(es, k) == []
    {
      hide Matching, Items, Index, Home;
      forall x | x in Both() ensures x.key != k {
        ItemsIn(table1, x);
        ItemsIn(table2, x);
      }
      MissingKey(Both(), es, k);
    }
  }

  /** Built on a fresh object, a probe answers any key with exactly its row ids, in input order. */
  method BuildAndProbe(mix1: int -> nat, mix2: int -> nat, ps: seq<(i32, nat)>, k: i32)
    returns (ok: bool, rows: seq<Entry>)
    ensures ok ==> rows == Matching(Narrowed(ps), k)
    ensures ok ==> exists places :: KeyRows(ps, k, rows, places)
  {
    hide *;
    var table := new CuckooBackend(mix1, mix2);
    ok := table.BuildFromEntries(ps);
    if !ok { return false, []; }
    var begin, count := table.Probe(k, Narrowed(ps));
    StoredFirst(ps, table.storage);
    ProbeSlice(table.storage, Narrowed(ps), k, begin, count);
    rows := table.storage[begin..begin + count];
    MatchingRows(ps, k);
  }
}
