/** The general-purpose cuckoo map: a finite map over two tables of buckets. */
module CuckooMaps {
  import opened Bytes
  import opened Slots
  import opened CuckooTables

  class CuckooMap<K(==,!new), V(!new)> {
    const hasher: K -> nat
    const residue: ((K, V)) -> (K, V)  // what moving a pair leaves in its place
    var table1: Table<K, V>
    var table2: Table<K, V>
    var tableSize: nat
    var numElements: nat

    ghost function Now(): Tables<K, V>
      reads this`table1, this`table2, this`tableSize, this`numElements
    {
      Tables(table1, table2, tableSize, numElements)
    }

    ghost function Both(): multiset<(K, V)>
      reads this`table1, this`table2, this`tableSize, this`numElements
    {
      Now().Bag()
    }

    ghost predicate Valid()
      reads this`table1, this`table2, this`tableSize, this`numElements
    {
      Sound(hasher, Now()) && Now().Sized()
    }

    /** The buckets hold exactly the pairs of a map, so no key occurs twice. */
    ghost predicate Represents(m: map<K, V>)
      reads this`table1, this`table2, this`tableSize, this`numElements
    {
      Valid() && BagOf(m, Both())
    }

    constructor (hasher: K -> nat, residue: ((K, V)) -> (K, V), size: nat)
      requires size > 0
      ensures this.hasher == hasher && this.residue == residue && Represents(map[]) && Now() == Emptied(size)
    {
      this.hasher, this.residue := hasher, residue;
      tableSize, numElements := size, 0;
      table1, table2 := Vacant(size), Vacant(size);
      new;
      NoItems<(K, V)>(size);
    }

    /** Places the carried pair in its first home, or trades it for the pair found there. */
    method TryFirst(x: (K, V)) returns (placed: bool, out: (K, V))
      requires |table1| == tableSize > 0
      modifies this`table1, this`numElements
      ensures |table1| == tableSize > 0 && numElements == old(numElements) + (if placed then 1 else 0)
      ensures Put(old(table1), Hash1(hasher, tableSize, x.0), x, placed, out, table1)
    {
      var h := Hash1(hasher, tableSize, x.0);
      placed, out := table1[h].None?, x;
      if placed {
        table1, numElements := table1[h := Some(x)], numElements + 1;
      } else {
        out := table1[h].value;
        table1 := table1[h := Some(x)];
      }
    }

    method TrySecond(x: (K, V)) returns (placed: bool, out: (K, V))
      requires |table2| == tableSize > 0
      modifies this`table2, this`numElements
      ensures |table2| == tableSize > 0 && numElements == old(numElements) + (if placed then 1 else 0)
      ensures Put(old(table2), Hash2(hasher, tableSize, x.0), x, placed, out, table2)
    {
      var h := Hash2(hasher, tableSize, x.0);
      placed, out := table2[h].None?, x;
      if placed {
        table2, numElements := table2[h := Some(x)], numElements + 1;
      } else {
        out := table2[h].value;
        table2 := table2[h := Some(x)];
      }
    }

    /** One turn of the displacement loop: a first home, then the evicted pair's second. */
    method Round(x: (K, V), ghost rounds: nat) returns (placed: bool, out: (K, V))
      requires Now().Sized() && rounds > 0
      modifies this`table1, this`table2, this`numElements
      ensures Now().Sized() && numElements == old(numElements) + (if placed then 1 else 0)
      ensures Displaced(hasher, old(table1), old(table2), x, rounds) ==
        if placed then Placement(true, table1, table2, out) else Displaced(hasher, table1, table2, out, rounds - 1)
    {
      ghost var t1, t2 := table1, table2;
      hide Put, Displaced, Hash1, Hash2;
      placed, out := TryFirst(x);
      if placed {
        FirstHome(hasher, t1, t2, x, rounds, out, table1);
      } else {
        ghost var y := out;
        placed, out := TrySecond(out);
        BothHomes(hasher, t1, t2, x, rounds, y, table1, placed, out, table2);
      }
    }

    method Rounds(x0: (K, V)) returns (ok: bool, out: (K, V))
      requires Now().Sized()
      modifies this`table1, this`table2, this`numElements
      ensures Now().Sized() && numElements == old(numElements) + (if ok then 1 else 0)
      ensures Displaced(hasher, old(table1), old(table2), x0, MAX_ITERATIONS) == Placement(ok, table1, table2, out)
    {
      ghost var p, left := Displaced(hasher, table1, table2, x0, MAX_ITERATIONS), MAX_ITERATIONS;
      hide Displaced;
      out := x0;
      for i := 0 to MAX_ITERATIONS
        invariant Now().Sized() && numElements == old(numElements) && left == MAX_ITERATIONS - i
        invariant Displaced(hasher, table1, table2, out, left) == p
      {
        ok, out := Round(out, left);
        if ok { return; }
        left := left - 1;
      }
      NotDisplaced(hasher, table1, table2, out);
      ok := false;
    }

    /** Up to 100 rounds; on failure the parameters hand back exactly the one displaced pair. */
    method InsertCore(key: K, value: V) returns (ok: bool, outKey: K, outValue: V)
      requires Now().Sized()
      modifies this`table1, this`table2, this`numElements
      ensures Displacing(hasher, old(Now()), (key, value)) == Placement(ok, table1, table2, (outKey, outValue))
      ensures Now() == Pushed(hasher, old(Now()), (key, value))
      ensures old(Valid()) ==> Valid()
      ensures old(Valid()) ==>
        Both() + (if ok then multiset{} else multiset{(outKey, outValue)}) == old(Both()) + multiset{(key, value)}
    {
      ghost var s := Now();
      var x := (key, value);
      if Sound(hasher, s) { PushedSound(hasher, s, x); }
      hide Displaced, Sound, Tables.Bag;
      var out;
      ok, out := Rounds(x);
      outKey, outValue := out.0, out.1;
    }

    /** The occupied buckets, table by table. */
    method AllElements() returns (all: seq<(K, V)>)
      ensures all == Now().Stored()
    {
      hide Occupied;
      all := [];
      NoneYet(table1);
      NoneYet(table2);
      for s := 0 to |table1|
        invariant all == Occupied(table1[..s])
      {
        OccupiedNext(table1, s);
        if table1[s].Some? { all := all + [table1[s].value]; }
      }
      assert table1[..|table1|] == table1;
      for s := 0 to |table2|
        invariant all == Occupied(table1) + Occupied(table2[..s])
      {
        OccupiedNext(table2, s);
        if table2[s].Some? { all := all + [table2[s].value]; }
      }
      assert table2[..|table2|] == table2;
    }

    /** Fresh tables of the current size, filled with all elements or given up; `moved` elements were moved out. */
    method Refill(all: seq<(K, V)>) returns (ok: bool, moved: nat)
      requires tableSize > 0
      modifies this`table1, this`table2, this`numElements
      ensures Reload(hasher, Vacant(tableSize), Vacant(tableSize), all, 0) == Load(ok, table1, table2, moved)
      ensures ok ==> numElements == |all|
    {
      table1, table2, numElements := Vacant(tableSize), Vacant(tableSize), 0;
      ghost var l := Reload(hasher, table1, table2, all, 0);
      hide Reload, Displaced;
      for i := 0 to |all|
        invariant Now().Sized() && numElements == i && Reload(hasher, table1, table2, all, i) == l
      {
        ReloadNext(hasher, table1, table2, all, i);
        var x, next := all[i], i + 1;
        var k, v;
        ok, k, v := InsertCore(x.0, x.1);
        if !ok { return false, next; }
      }
      ReloadDone(hasher, table1, table2, all);
      return true, |all|;
    }

    /** Doubles the tables until everything fits, at most five times; `ok` is false where the original throws. */
    method Rehash() returns (ok: bool)
      requires Now().Sized()
      modifies this`table1, this`table2, this`tableSize, this`numElements
      ensures ok == Rehashing(hasher, residue, old(Now())).Rebuilt?
      ensures ok ==> Now() == Rebuilding(hasher, residue, old(Now())) && tableSize >= 2 * old(tableSize)
      ensures ok && old(Valid()) ==> Valid() && numElements == old(numElements)
      ensures ok && old(Valid()) ==> Both() == multiset(Rehashing(hasher, residue, old(Now())).elements)
    {
      ghost var s := Now();
      if Sound(hasher, s) && Rehashing(hasher, residue, s).Rebuilt? { RebuildingSound(hasher, residue, s); }
      hide Rehashed, Sound, Tables.Bag, Tables.Stored;
      var all := AllElements();
      ok := Attempts(all);
    }

    method Attempts(elements: seq<(K, V)>) returns (ok: bool)
      requires tableSize > 0
      modifies this`table1, this`table2, this`tableSize, this`numElements
      ensures var r := Rehashed(hasher, residue, old(tableSize), elements, MAX_ATTEMPTS);
        ok == r.Rebuilt? && (ok ==> r == Rebuilt(table1, table2, tableSize, r.elements) && numElements == |r.elements|)
    {
      var all := elements;
      ghost var left, r := MAX_ATTEMPTS, Rehashed(hasher, residue, tableSize, all, MAX_ATTEMPTS);
      hide Rehashed, Reload, Moved;
      for attempts := 0 to MAX_ATTEMPTS
        invariant tableSize > 0 && left == MAX_ATTEMPTS - attempts
        invariant Rehashed(hasher, residue, tableSize, all, left) == r
      {
        RehashedNext(hasher, residue, tableSize, all, left);
        tableSize, left := tableSize * 2, left - 1;
        var moved;
        ok, moved := Refill(all);
        if ok { return true; }
        all := Moved(residue, all, moved);
      }
      RehashGivenUp(hasher, residue, tableSize, all);
      return false;
    }

    /** Rehashing until the displaced pair fits. */
    method Retry(key: K, value: V, fuel: nat) returns (outcome: Outcome)
      requires Now().Sized()
      modifies this`table1, this`table2, this`tableSize, this`numElements
      ensures Settles(Retried(hasher, residue, old(Now()), (key, value), fuel), outcome, Now())
    {
      ghost var left, r := fuel, Retried(hasher, residue, Now(), (key, value), fuel);
      hide *;
      var k, v, ok := key, value, false;
      for n := 0 to fuel
        invariant Now().Sized() && left == fuel - n && Retried(hasher, residue, Now(), (k, v), left) == r
      {
        ghost var x, less := (k, v), left - 1;
        RetriedNext(hasher, residue, Now(), x, left, less);
        var rehashed := Rehash();
        if !rehashed { return Threw; }
        left := less;
        PlacedNext(hasher, residue, Now(), x, left);
        ok, k, v := InsertCore(k, v);
        if ok { return Done; }
      }
      RetriedOut(hasher, residue, Now(), (k, v));
      return OutOfFuel;
    }

    /** A call that returns adds exactly one pair if it is clean, and only then if what a move leaves stays when
        moved. */
    method Insert(key: K, value: V, fuel: nat) returns (outcome: Outcome)
      requires Valid()
      modifies this`table1, this`table2, this`tableSize, this`numElements
      ensures Settles(Inserted(hasher, residue, old(Now()), (key, value), fuel), outcome, Now())
      ensures outcome == Done ==> Valid() && numElements == old(numElements) + 1
      ensures outcome == Done && InsertedClean(hasher, residue, old(Now()), (key, value), fuel) ==>
        Both() == old(Both()) + multiset{(key, value)}
      ensures outcome == Done && Idempotent(residue) ==>
        (Both() == old(Both()) + multiset{(key, value)} <==>
           InsertedClean(hasher, residue, old(Now()), (key, value), fuel))
    {
      ghost var x, more := (key, value), fuel + 1;
      ghost var r := Inserted(hasher, residue, Now(), x, fuel);
      InsertedHolds(hasher, residue, Now(), x, fuel);
      hide Retried, Placed, Displacing, Pushed, Rehashing, Rebuilding, Sound, Tables.Bag, InsertedClean, Idempotent;
      if numElements >= tableSize {
        RetriedNext(hasher, residue, Now(), x, more, fuel);
        var rehashed := Rehash();
        if !rehashed { return Threw; }
      }
      PlacedNext(hasher, residue, Now(), x, fuel);
      var ok, k, v := InsertCore(key, value);
      if ok { return Done; }
      outcome := Retry(k, v, fuel);
    }

    /** A call that returns is the update of a finite map if it is clean, and only then if what a move leaves stays when
        moved. */
    method Upsert(key: K, value: V, fuel: nat, ghost m: map<K, V>) returns (outcome: Outcome)
      requires Valid()
      modifies this`table1, this`table2, this`tableSize, this`numElements
      ensures Settles(Upserted(hasher, residue, old(Now()), key, value, fuel), outcome, Now())
      ensures outcome == Done ==> Valid()
      ensures old(Represents(m)) && outcome == Done && UpsertedClean(hasher, residue, old(Now()), key, value, fuel) ==>
        Represents(m[key := value])
      ensures old(Represents(m)) && outcome == Done && Idempotent(residue) && Represents(m[key := value]) ==>
        UpsertedClean(hasher, residue, old(Now()), key, value, fuel)
    {
      UpsertedHolds(hasher, residue, Now(), key, value, fuel, m);
      hide Hash1, Hash2, Sound, Tables.Bag, BagOf, Inserted, InsertedClean, UpsertedClean, Idempotent;
      var h1 := Hash1(hasher, tableSize, key);
      if table1[h1].Some? && table1[h1].value.0 == key {
        table1 := table1[h1 := Some((key, value))];
        return Done;
      }
      var h2 := Hash2(hasher, tableSize, key);
      if table2[h2].Some? && table2[h2].value.0 == key {
        table2 := table2[h2 := Some((key, value))];
        return Done;
      }
      outcome := Insert(key, value, fuel);
    }

    method Find(key: K, ghost m: map<K, V>) returns (r: Option<V>)
      requires Valid()
      ensures Represents(m) ==> r == if key in m then Some(m[key]) else None
      ensures r == Lookup(hasher, table1, table2, key)
    {
      if BagOf(m, Both()) { LookupHolds(hasher, Now(), key, m); }
      hide Hash1, Hash2, Sound, Tables.Bag, BagOf;
      var h1 := Hash1(hasher, tableSize, key);
      if table1[h1].Some? && table1[h1].value.0 == key {
        return Some(table1[h1].value.1);
      }
      var h2 := Hash2(hasher, tableSize, key);
      if table2[h2].Some? && table2[h2].value.0 == key {
        return Some(table2[h2].value.1);
      }
      return None;
    }
  }

  // ---------- runs ----------

  datatype Op<K, V> = UpsertOp(key: K, value: V) | FindOp(key: K)

  /** What a finite map answers to the find operations of a run, oldest first. */
  function Answers<K(==), V>(ops: seq<Op<K, V>>): seq<Option<V>> {
    if ops == [] then [] else
      var before, m := ops[..|ops| - 1], Replay(ops[..|ops| - 1]);
      match ops[|ops| - 1]
      case UpsertOp(_, _) => Answers(before)
      case FindOp(k) => Answers(before) + [if k in m then Some(m[k]) else None]
  }

  /** The finite map after a run. */
  function Replay<K(==), V>(ops: seq<Op<K, V>>): map<K, V> {
    if ops == [] then map[] else
      var m := Replay(ops[..|ops| - 1]);
      match ops[|ops| - 1]
      case UpsertOp(k, v) => m[k := v]
      case FindOp(_) => m
  }

  /** The tables after a run on a new map. */
  function Ran<K(==), V>(hasher: K -> nat, residue: ((K, V)) -> (K, V), size: nat, ops: seq<Op<K, V>>, fuel: nat)
    : (r: Settled<K, V>)
    requires size > 0
    ensures r.outcome == Done ==> r.tables.Sized()
    decreases |ops|
  {
    if ops == [] then Settled(Done, Emptied(size)) else
      var before := Ran(hasher, residue, size, ops[..|ops| - 1], fuel);
      if before.outcome != Done then before else
        match ops[|ops| - 1]
        case UpsertOp(k, v) =>
          UpsertedSized(hasher, residue, before.tables, k, v, fuel);
          Upserted(hasher, residue, before.tables, k, v, fuel)
        case FindOp(_) => before
  }

  /** What the find operations of a run return. */
  function Found<K(==), V>(hasher: K -> nat, residue: ((K, V)) -> (K, V), size: nat, ops: seq<Op<K, V>>, fuel: nat)
    : seq<Option<V>>
    requires size > 0
    decreases |ops|
  {
    if ops == [] then [] else
      var before, r := ops[..|ops| - 1], Ran(hasher, residue, size, ops[..|ops| - 1], fuel);
      var answers := Found(hasher, residue, size, before, fuel);
      match ops[|ops| - 1]
      case UpsertOp(_, _) => answers
      case FindOp(k) =>
        if r.outcome == Done then answers + [Lookup(hasher, r.tables.t1, r.tables.t2, k)] else answers
  }

  /** Every upsert of the run is clean: in each of its rehashes, an element that a failed attempt moved is what its move
      left. */
  ghost predicate RunClean<K, V>(hasher: K -> nat, residue: ((K, V)) -> (K, V), size: nat, ops: seq<Op<K, V>>,
                                 fuel: nat)
    requires size > 0
    decreases |ops|
  {
    ops != [] ==>
      var before, r := ops[..|ops| - 1], Ran(hasher, residue, size, ops[..|ops| - 1], fuel);
      && RunClean(hasher, residue, size, before, fuel)
      && (r.outcome == Done && ops[|ops| - 1].UpsertOp? ==>
            UpsertedClean(hasher, residue, r.tables, ops[|ops| - 1].key, ops[|ops| - 1].value, fuel))
  }

  /** A run that returns leaves the pairs of the finite map after it, and has answered as that map does, if it is
      clean. */
  lemma {:induction false} RanHolds<K(!new), V(!new)>(hasher: K -> nat, residue: ((K, V)) -> (K, V), size: nat,
                                                      ops: seq<Op<K, V>>, fuel: nat)
    requires size > 0
    ensures var r := Ran(hasher, residue, size, ops, fuel);
      r.outcome == Done ==>
        && Sound(hasher, r.tables)
        && (RunClean(hasher, residue, size, ops, fuel) ==>
              BagOf(Replay(ops), r.tables.Bag()) && Found(hasher, residue, size, ops, fuel) == Answers(ops))
    decreases |ops|
  {
    hide Sound, BagOf, Tables.Bag, Upserted, UpsertedClean, Lookup;
    if ops == [] {
      NothingStored<K, V>(hasher, size);
    } else {
      var before := ops[..|ops| - 1];
      RanHolds(hasher, residue, size, before, fuel);
      var r, m := Ran(hasher, residue, size, before, fuel), Replay(before);
      if r.outcome == Done {
        match ops[|ops| - 1]
        case UpsertOp(k, v) => UpsertedHolds(hasher, residue, r.tables, k, v, fuel, m);
        case FindOp(k) => if BagOf(m, r.tables.Bag()) { LookupHolds(hasher, r.tables, k, m); }
      }
    }
  }

  lemma NothingStored<K(!new), V(!new)>(hasher: K -> nat, size: nat)
    requires size > 0
    ensures Sound(hasher, Emptied<K, V>(size)) && BagOf(map[], Emptied<K, V>(size).Bag())
  {
    NoItems<(K, V)>(size);
  }

  /** Where moves leave copies behind, every run is clean. */
  lemma {:induction false} CopiesRunClean<K(!new), V(!new)>(hasher: K -> nat, residue: ((K, V)) -> (K, V), size: nat,
                                                            ops: seq<Op<K, V>>, fuel: nat)
    requires size > 0 && Copies(residue)
    ensures RunClean(hasher, residue, size, ops, fuel)
    decreases |ops|
  {
    hide PlacedClean, RetriedClean, Ran, Copies;
    if ops != [] {
      CopiesRunClean(hasher, residue, size, ops[..|ops| - 1], fuel);
      var r := Ran(hasher, residue, size, ops[..|ops| - 1], fuel);
      if r.outcome == Done && ops[|ops| - 1].UpsertOp? {
        var x := (ops[|ops| - 1].key, ops[|ops| - 1].value);
        CopiesPlacedClean(hasher, residue, r.tables, x, fuel);
        CopiesRetriedClean(hasher, residue, r.tables, x, fuel + 1);
      }
    }
  }

  lemma {:induction false} RunStops<K(!new), V(!new)>(hasher: K -> nat, residue: ((K, V)) -> (K, V), size: nat,
                                      ops: seq<Op<K, V>>, fuel: nat, i: nat)
    requires size > 0 && i <= |ops| && Ran(hasher, residue, size, ops[..i], fuel).outcome != Done
    ensures Ran(hasher, residue, size, ops, fuel) == Ran(hasher, residue, size, ops[..i], fuel)
    decreases |ops| - i
  {
    hide Upserted;
    if i < |ops| {
      assert ops[..i + 1][..i] == ops[..i];
      RunStops(hasher, residue, size, ops, fuel, i + 1);
    } else {
      assert ops[..i] == ops;
    }
  }

  lemma {:induction false} RanNext<K(!new), V(!new)>(hasher: K -> nat, residue: ((K, V)) -> (K, V), size: nat,
                                     ops: seq<Op<K, V>>, fuel: nat, i: nat)
    requires size > 0 && i < |ops| && Ran(hasher, residue, size, ops[..i], fuel).outcome == Done
    ensures var s := Ran(hasher, residue, size, ops[..i], fuel).tables;
      Ran(hasher, residue, size, ops[..i + 1], fuel) == match ops[i]
        case UpsertOp(k, v) => Upserted(hasher, residue, s, k, v, fuel)
        case FindOp(_) => Settled(Done, s)
    ensures var s := Ran(hasher, residue, size, ops[..i], fuel).tables;
      Found(hasher, residue, size, ops[..i + 1], fuel) == match ops[i]
        case UpsertOp(_, _) => Found(hasher, residue, size, ops[..i], fuel)
        case FindOp(k) => Found(hasher, residue, size, ops[..i], fuel) + [Lookup(hasher, s.t1, s.t2, k)]
  {
    hide Upserted, Lookup;
    assert ops[..i + 1][..i] == ops[..i];
  }

  lemma {:induction false} NothingRan<K(!new), V(!new)>(hasher: K -> nat, residue: ((K, V)) -> (K, V), size: nat,
                                        fuel: nat)
    requires size > 0
    ensures Ran(hasher, residue, size, [], fuel) == Settled(Done, Emptied(size))
    ensures Found(hasher, residue, size, [], fuel) == []
  {
  }

  /** Any run of upserts and finds on a new map that returns answers as a finite map does, if it is clean. */
  method Run<K(==,!new), V(!new)>(hasher: K -> nat, residue: ((K, V)) -> (K, V), size: nat, ops: seq<Op<K, V>>,
                                  fuel: nat)
    returns (outcome: Outcome, answers: seq<Option<V>>)
    requires size > 0
    ensures outcome == Ran(hasher, residue, size, ops, fuel).outcome
    ensures outcome == Done ==> answers == Found(hasher, residue, size, ops, fuel)
    ensures outcome == Done && RunClean(hasher, residue, size, ops, fuel) ==> answers == Answers(ops)
  {
    var c := new CuckooMap<K, V>(hasher, residue, size);
    answers := [];
    NothingRan(hasher, residue, size, fuel);
    RanHolds(hasher, residue, size, ops, fuel);
    hide Ran, Found, RunClean, CuckooMap.Valid, Upserted, Lookup, BagOf, Sound;
    for i := 0 to |ops|
      invariant c.hasher == hasher && c.residue == residue && c.Valid()
      invariant Ran(hasher, residue, size, ops[..i], fuel) == Settled(Done, c.Now())
      invariant answers == Found(hasher, residue, size, ops[..i], fuel)
    {
      RanNext(hasher, residue, size, ops, fuel, i);
      match ops[i] {
        case UpsertOp(k, v) =>
          outcome := c.Upsert(k, v, fuel, map[]);
          if outcome != Done {
            RunStops(hasher, residue, size, ops, fuel, i + 1);
            return;
          }
        case FindOp(k) =>
          var r := c.Find(k, map[]);
          answers := answers + [r];
      }
    }
    assert ops[..|ops|] == ops;
    outcome := Done;
  }
}
