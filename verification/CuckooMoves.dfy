/** Two runs of the cuckoo map that a finite map would answer otherwise: moved strings, and a key inserted twice. */
module CuckooMoves {
  import opened Bytes
  import opened Slots
  import opened CuckooTables
  import opened CuckooMaps

  type Key = (nat, nat)
  type Pair = (Key, string)

  function Hash(k: Key): nat { k.0 + 0x1_0000 * k.1 }

  /** A moved string leaves an empty one behind. */
  function Left(p: Pair): Pair { (p.0, "") }

  // Pairs whose first homes agree while the tables have 512 slots, and no longer with 1024.

  function A(i: nat, v: string): Pair { ((i, i), v) }

  function B(i: nat, v: string): Pair { ((512 + i, i + 1), v) }

  function X(v: string): Pair { ((512, 128), v) }

  predicate Size(size: nat) { size == 256 || size == 512 || size == 1024 }

  lemma Homes(size: nat, k: Key)
    requires Size(size) && k.0 < 1024 && k.1 < 256
    ensures Hash1(Hash, size, k) == k.0 % size && Hash2(Hash, size, k) == k.1
  {
    assert Hash(k) / 0x1_0000 == k.1;
    if size == 256 {
      assert Hash(k) == k.0 + 256 * (256 * k.1);
    } else if size == 512 {
      assert Hash(k) == k.0 + 512 * (128 * k.1);
    } else {
      assert Hash(k) == k.0 + 1024 * (64 * k.1);
    }
  }

  lemma {:induction false} PlaceFree(size: nat, t1: Table<Key, string>, t2: Table<Key, string>, x: Pair)
    requires Size(size) && |t1| == |t2| == size && x.0.0 < 1024 && x.0.1 < 256 && t1[x.0.0 % size] == None
    ensures Displaced(Hash, t1, t2, x, MAX_ITERATIONS) == Placement(true, t1[x.0.0 % size := Some(x)], t2, x)
  {
    hide Displaced, Hash1, Hash2;
    Homes(size, x.0);
    FirstHome(Hash, t1, t2, x, MAX_ITERATIONS, x, t1[x.0.0 % size := Some(x)]);
  }

  lemma {:induction false} PlaceEvicting(size: nat, t1: Table<Key, string>, t2: Table<Key, string>, x: Pair, y: Pair)
    requires Size(size) && |t1| == |t2| == size && x.0.0 < 1024 && x.0.1 < 256 && t1[x.0.0 % size] == Some(y)
    requires y.0.0 < 1024 && y.0.1 < 256 && t2[y.0.1] == None
    ensures Displaced(Hash, t1, t2, x, MAX_ITERATIONS) ==
      Placement(true, t1[x.0.0 % size := Some(x)], t2[y.0.1 := Some(y)], y)
  {
    hide Displaced, Hash1, Hash2;
    Homes(size, x.0);
    Homes(size, y.0);
    BothHomes(Hash, t1, t2, x, MAX_ITERATIONS, y, t1[x.0.0 % size := Some(x)], true, y, t2[y.0.1 := Some(y)]);
  }

  // ---------- filling a map with 256 slots in each table ----------

  function Filled1(j: nat): Table<Key, string> {
    seq(256, (s: nat) => if s < j then Some(A(s, "v")) else None)
  }

  function Filled2(j: nat): Table<Key, string> {
    seq(256, (s: nat) => if s == 128 then Some(X("v")) else if 1 <= s <= j then Some(B(s - 1, "v")) else None)
  }

  /** Inserting a pair that evicts nothing, or one pair into a free slot. */
  lemma FillB(j: nat)
    requires 0 < j < 127
    ensures Displaced(Hash, Filled1(j), Filled2(j), B(j, "v"), MAX_ITERATIONS) ==
      Placement(true, Filled1(j)[j := Some(B(j, "v"))], Filled2(j), B(j, "v"))
  {
    hide Displaced;
    PlaceFree(256, Filled1(j), Filled2(j), B(j, "v"));
  }

  lemma FillA(j: nat)
    requires j < 127
    ensures Displaced(Hash, Filled1(j)[j := Some(B(j, "v"))], Filled2(j), A(j, "v"), MAX_ITERATIONS) ==
      Placement(true, Filled1(j + 1), Filled2(j + 1), B(j, "v"))
  {
    hide Displaced;
    PlaceEvicting(256, Filled1(j)[j := Some(B(j, "v"))], Filled2(j), A(j, "v"), B(j, "v"));
    assert Filled1(j)[j := Some(B(j, "v"))][j := Some(A(j, "v"))] == Filled1(j + 1);
    assert Filled2(j)[j + 1 := Some(B(j, "v"))] == Filled2(j + 1);
  }

  lemma FillFirst()
    ensures Displaced(Hash, Vacant(256), Vacant(256), X("v"), MAX_ITERATIONS) ==
      Placement(true, Vacant(256)[0 := Some(X("v"))], Vacant(256), X("v"))
    ensures Displaced(Hash, Vacant(256)[0 := Some(X("v"))], Vacant(256), B(0, "v"), MAX_ITERATIONS) ==
      Placement(true, Filled1(0)[0 := Some(B(0, "v"))], Filled2(0), X("v"))
  {
    hide Displaced;
    var one := Vacant<Pair>(256)[0 := Some(X("v"))];
    PlaceFree(256, Vacant(256), Vacant(256), X("v"));
    PlaceEvicting(256, one, Vacant(256), B(0, "v"), X("v"));
    assert one[0 := Some(B(0, "v"))] == Filled1(0)[0 := Some(B(0, "v"))];
    assert Vacant<Pair>(256)[128 := Some(X("v"))] == Filled2(0);
  }

  lemma FillLast()
    ensures Displaced(Hash, Filled1(127), Filled2(127), A(127, "v"), MAX_ITERATIONS) ==
      Placement(true, Filled1(128), Filled2(127), A(127, "v"))
  {
    hide Displaced;
    PlaceFree(256, Filled1(127), Filled2(127), A(127, "v"));
    assert Filled1(127)[127 := Some(A(127, "v"))] == Filled1(128);
  }

  // ---------- the order in which a rehash inserts ----------

  function Order(v: string): (all: seq<Pair>)
    ensures |all| == 256
    ensures forall i | 0 <= i < 256 :: all[i] == if i < 128 then A(i, v) else if i < 255 then B(i - 128, v) else X(v)
  {
    seq(256, i requires 0 <= i < 256 => if i < 128 then A(i, v) else if i < 255 then B(i - 128, v) else X(v))
  }

  lemma {:induction false} OccupiedStretch(t: Table<Key, string>, lo: nat, xs: seq<Pair>)
    requires lo + |xs| <= |t|
    requires forall s | 0 <= s < |t| :: t[s] == if lo <= s < lo + |xs| then Some(xs[s - lo]) else None
    ensures Occupied(t) == xs
  {
    if t != [] {
      var n := |t| - 1;
      assert forall s | 0 <= s < n :: t[..n][s] == t[s];
      if lo + |xs| == |t| && xs != [] {
        OccupiedStretch(t[..n], lo, xs[..|xs| - 1]);
      } else if xs == [] {
        OccupiedStretch(t[..n], 0, xs);
      } else {
        OccupiedStretch(t[..n], lo, xs);
      }
    }
  }

  lemma FilledOrder()
    ensures Occupied(Filled1(128)) + Occupied(Filled2(127)) == Order("v")
  {
    hide Occupied;
    OccupiedStretch(Filled1(128), 0, Order("v")[..128]);
    OccupiedStretch(Filled2(127), 1, Order("v")[128..]);
  }

  // ---------- the attempt with 512 slots fails at its last element ----------

  function Loaded1(size: nat, i: nat, v: string): Table<Key, string> {
    seq(size, (s: nat) => if s < i then Some(A(s, v)) else None)
  }

  lemma {:induction false} LoadA(size: nat, i: nat, v: string)
    requires Size(size) && i <= 128
    ensures Reload(Hash, Vacant(size), Vacant(size), Order(v), 0) ==
      Reload(Hash, Loaded1(size, i, v), Vacant(size), Order(v), i)
  {
    hide Reload, Displaced;
    if i == 0 {
      assert Loaded1(size, 0, v) == Vacant(size);
    } else {
      LoadA(size, i - 1, v);
      var t1 := Loaded1(size, i - 1, v);
      PlaceFree(size, t1, Vacant(size), A(i - 1, v));
      ReloadNext(Hash, t1, Vacant(size), Order(v), i - 1);
      assert t1[i - 1 := Some(A(i - 1, v))] == Loaded1(size, i, v);
    }
  }

  function Crowded1(i: nat, v: string): Table<Key, string> {
    seq(512, (s: nat) => if s < i then Some(B(s, v)) else if s < 128 then Some(A(s, v)) else None)
  }

  function Crowded2(i: nat, v: string): Table<Key, string> {
    seq(512, (s: nat) => if s < i then Some(A(s, v)) else None)
  }

  lemma {:induction false} CrowdB(i: nat, v: string)
    requires i <= 127
    ensures Reload(Hash, Vacant(512), Vacant(512), Order(v), 0) ==
      Reload(Hash, Crowded1(i, v), Crowded2(i, v), Order(v), 128 + i)
  {
    hide Reload, Displaced;
    if i == 0 {
      LoadA(512, 128, v);
      assert Crowded1(0, v) == Loaded1(512, 128, v) && Crowded2(0, v) == Vacant(512);
    } else {
      CrowdB(i - 1, v);
      var t1, t2 := Crowded1(i - 1, v), Crowded2(i - 1, v);
      PlaceEvicting(512, t1, t2, B(i - 1, v), A(i - 1, v));
      ReloadNext(Hash, t1, t2, Order(v), 127 + i);
      assert t1[i - 1 := Some(B(i - 1, v))] == Crowded1(i, v);
      assert t2[i - 1 := Some(A(i - 1, v))] == Crowded2(i, v);
    }
  }

  /** The pair carried after `n` rounds, and the tables then. */
  function Carried(n: nat, v: string): Pair { if n == 0 then X(v) else A(n, v) }

  function Chain1(n: nat, v: string): Table<Key, string> {
    seq(512, (s: nat) =>
      if s < n then Some(Carried(s, v)) else if s < 127 then Some(B(s, v))
      else if s == 127 then Some(A(s, v)) else None)
  }

  function Chain2(n: nat, v: string): Table<Key, string> {
    seq(512, (s: nat) =>
      if s == 0 then Some(A(0, v)) else if s <= n then Some(B(s - 1, v)) else if s < 127 then Some(A(s, v)) else None)
  }

  /** Each round hands on one more pair. */
  lemma {:induction false} ChainRound(n: nat, v: string, rounds: nat)
    requires n < 126 && rounds > 0
    ensures Displaced(Hash, Chain1(n, v), Chain2(n, v), Carried(n, v), rounds) ==
      Displaced(Hash, Chain1(n + 1, v), Chain2(n + 1, v), Carried(n + 1, v), rounds - 1)
  {
    hide Displaced, Hash1, Hash2;
    var x, y, z := Carried(n, v), B(n, v), A(n + 1, v);
    Homes(512, x.0);
    Homes(512, y.0);
    assert Chain1(n, v)[n := Some(x)] == Chain1(n + 1, v);
    assert Chain2(n, v)[n + 1 := Some(y)] == Chain2(n + 1, v);
    BothHomes(Hash, Chain1(n, v), Chain2(n, v), x, rounds, y, Chain1(n + 1, v), false, z, Chain2(n + 1, v));
  }

  lemma {:induction false} ChainFails(n: nat, v: string, rounds: nat)
    requires n + rounds <= 126
    ensures !Displaced(Hash, Chain1(n, v), Chain2(n, v), Carried(n, v), rounds).ok
    decreases rounds
  {
    hide Displaced, Chain1, Chain2;
    ChainSizes(n, v);
    if rounds == 0 {
      NotDisplaced(Hash, Chain1(n, v), Chain2(n, v), Carried(n, v));
    } else {
      ChainRound(n, v, rounds);
      ChainFails(n + 1, v, rounds - 1);
    }
  }

  lemma ChainSizes(n: nat, v: string)
    ensures |Chain1(n, v)| == |Chain2(n, v)| == 512
  {
  }

  lemma FirstAttempt(v: string)
    ensures var l := Reload(Hash, Vacant(512), Vacant(512), Order(v), 0); !l.ok && l.moved == 256
  {
    hide Reload, Displaced;
    CrowdB(127, v);
    var t1, t2 := Crowded1(127, v), Crowded2(127, v);
    assert t1 == Chain1(0, v) && t2 == Chain2(0, v);
    ChainFails(0, v, MAX_ITERATIONS);
    ReloadNext(Hash, t1, t2, Order(v), 255);
  }

  // ---------- the attempt with 1024 slots succeeds ----------

  function Roomy1(i: nat, v: string): Table<Key, string> {
    seq(1024, (s: nat) => if s < 128 then Some(A(s, v)) else if 512 <= s < 512 + i then Some(B(s - 512, v)) else None)
  }

  lemma {:induction false} RoomB(i: nat, v: string)
    requires i <= 127
    ensures Reload(Hash, Vacant(1024), Vacant(1024), Order(v), 0) ==
      Reload(Hash, Roomy1(i, v), Vacant(1024), Order(v), 128 + i)
  {
    hide Reload, Displaced;
    if i == 0 {
      LoadA(1024, 128, v);
      assert Roomy1(0, v) == Loaded1(1024, 128, v);
    } else {
      RoomB(i - 1, v);
      var t1 := Roomy1(i - 1, v);
      PlaceFree(1024, t1, Vacant(1024), B(i - 1, v));
      ReloadNext(Hash, t1, Vacant(1024), Order(v), 127 + i);
      assert t1[511 + i := Some(B(i - 1, v))] == Roomy1(i, v);
    }
  }

  lemma SecondAttempt(v: string)
    ensures var l := Reload(Hash, Vacant(1024), Vacant(1024), Order(v), 0);
      l.ok && l.t1 == Roomy1(127, v)[512 := Some(X(v))] && l.t2 == Vacant<Pair>(1024)[1 := Some(B(0, v))]
  {
    hide Reload, Displaced;
    RoomB(127, v);
    var t1, t2 := Roomy1(127, v), Vacant<Pair>(1024);
    PlaceEvicting(1024, t1, t2, X(v), B(0, v));
    ReloadNext(Hash, t1, t2, Order(v), 255);
    ReloadDone(Hash, t1[512 := Some(X(v))], t2[1 := Some(B(0, v))], Order(v));
  }

  lemma OrderLeft()
    ensures Moved(Left, Order("v"), 256) == Order("")
  {
    forall i | 0 <= i < 256 ensures Moved(Left, Order("v"), 256)[i] == Order("")[i] {
    }
  }

  /** The rehash of this map returns with every string empty. */
  lemma StringsLost()
    ensures Rehashed(Hash, Left, 256, Order("v"), MAX_ATTEMPTS) ==
      Rebuilt(Roomy1(127, "")[512 := Some(X(""))], Vacant<Pair>(1024)[1 := Some(B(0, ""))], 1024, Order(""))
  {
    hide Reload, Rehashed;
    FirstAttempt("v");
    SecondAttempt("");
    RehashedNext(Hash, Left, 256, Order("v"), MAX_ATTEMPTS);
    OrderLeft();
    RehashedNext(Hash, Left, 512, Order(""), MAX_ATTEMPTS - 1);
  }

  // ---------- the run ----------

  lemma InsertedAtOnce(s: Tables<Key, string>, x: Pair, fuel: nat)
    requires s.Sized() && s.count < s.size && Displacing(Hash, s, x).ok
    ensures Inserted(Hash, Left, s, x, fuel) == Settled(Done, Pushed(Hash, s, x))
  {
    hide Displacing, Pushed, Retried;
  }

  lemma InsertedRehashed(s: Tables<Key, string>, x: Pair, fuel: nat)
    requires s.Sized() && s.count >= s.size && Rehashing(Hash, Left, s).Rebuilt?
    requires Displacing(Hash, Rebuilding(Hash, Left, s), x).ok
    ensures Inserted(Hash, Left, s, x, fuel) == Settled(Done, Pushed(Hash, Rebuilding(Hash, Left, s), x))
  {
    hide Displacing, Pushed, Retried, Placed, Rehashing, Rebuilding;
    var more := fuel + 1;
    RetriedNext(Hash, Left, s, x, more, fuel);
    PlacedNext(Hash, Left, Rebuilding(Hash, Left, s), x, fuel);
  }

  /** An insertion known to find places for everything. */
  method Add(c: CuckooMap<Key, string>, x: Pair, ghost t1: Table<Key, string>, ghost t2: Table<Key, string>)
    returns (outcome: Outcome)
    requires c.Valid() && c.hasher == Hash && c.residue == Left && c.numElements < c.tableSize
    requires var p := Displacing(Hash, c.Now(), x); p.ok && p.t1 == t1 && p.t2 == t2
    modifies c
    ensures outcome == Done && c.Valid() && c.Now() == Tables(t1, t2, old(c.tableSize), old(c.numElements) + 1)
  {
    InsertedAtOnce(c.Now(), x, 0);
    hide Displacing, Inserted, Sound, Tables.Bag;
    outcome := c.Insert(x.0, x.1, 0);
  }

  ghost function Filled(j: nat): Tables<Key, string> { Tables(Filled1(j), Filled2(j), 256, 2 * j + 1) }

  lemma FilledSizes(j: nat)
    ensures |Filled1(j)| == |Filled2(j)| == 256
  {
  }

  /** 256 insertions into a map with 256 slots in each table. */
  method Fill() returns (c: CuckooMap<Key, string>)
    ensures fresh(c) && c.Valid() && c.hasher == Hash && c.residue == Left
    ensures c.Now() == Tables(Filled1(128), Filled2(127), 256, 256)
  {
    hide Displaced, Filled1, Filled2, A, B, X, Sound, Tables.Bag, BagOf;
    FillFirst();
    FilledSizes(0);
    FillA(0);
    FillLast();
    c := new CuckooMap(Hash, Left, 256);
    ghost var none: Table<Key, string> := Vacant(256);
    var done := Add(c, X("v"), none[0 := Some(X("v"))], none);
    done := Add(c, B(0, "v"), Filled1(0)[0 := Some(B(0, "v"))], Filled2(0));
    done := Add(c, A(0, "v"), Filled1(1), Filled2(1));
    for j := 1 to 127
      invariant c.Valid() && c.Now() == Filled(j)
    {
      FilledSizes(j);
      FillB(j);
      FillA(j);
      var next := j + 1;
      done := Add(c, B(j, "v"), Filled1(j)[j := Some(B(j, "v"))], Filled2(j));
      done := Add(c, A(j, "v"), Filled1(next), Filled2(next));
    }
    FilledSizes(127);
    done := Add(c, A(127, "v"), Filled1(128), Filled2(127));
  }

  /** The pair whose insertion makes the full map rehash. */
  function Z(): Pair { ((1000, 0), "v") }

  lemma FoundBefore(i: nat)
    requires i < 256
    ensures |Filled1(128)| == |Filled2(127)| == 256
    ensures Lookup(Hash, Filled1(128), Filled2(127), Order("v")[i].0) == Some("v")
  {
    hide Hash1, Hash2;
    Homes(256, Order("v")[i].0);
  }

  lemma FoundAfter(i: nat)
    requires i < 256
    ensures Lookup(Hash, Roomy1(127, "")[512 := Some(X(""))][1000 := Some(Z())],
                   Vacant<Pair>(1024)[1 := Some(B(0, ""))], Order("v")[i].0) == Some("")
  {
    hide Hash1, Hash2;
    var k := Order("v")[i].0;
    var t1, t2 := Roomy1(127, "")[512 := Some(X(""))][1000 := Some(Z())], Vacant<Pair>(1024)[1 := Some(B(0, ""))];
    Homes(1024, k);
    if i == 128 {
      assert t1[512] == Some(X("")) && t2[1] == Some((k, ""));
    } else if 128 < i < 255 {
      assert t1[384 + i] == Some(B(i - 128, "")) == Some((k, ""));
    } else {
      assert t1[k.0] == Some((k, ""));
    }
  }

  lemma RehashFull(s: Tables<Key, string>)
    requires s == Tables(Filled1(128), Filled2(127), 256, 256)
    ensures s.Sized() && Inserted(Hash, Left, s, Z(), 0) ==
      Settled(Done, Tables(Roomy1(127, "")[512 := Some(X(""))][1000 := Some(Z())],
                           Vacant<Pair>(1024)[1 := Some(B(0, ""))], 1024, 257))
  {
    FilledSizes(127);
    FilledSizes(128);
    FilledOrder();
    StringsLost();
    var t1, t2 := Roomy1(127, "")[512 := Some(X(""))], Vacant<Pair>(1024)[1 := Some(B(0, ""))];
    PlaceFree(1024, t1, t2, Z());
    hide Rehashed, Occupied, Displaced, Filled1, Filled2, Roomy1, Order, Inserted;
    assert s.Stored() == Order("v");
    assert Rebuilding(Hash, Left, s) == Tables(t1, t2, 1024, 256);
    InsertedRehashed(s, Z(), 0);
  }

  /** Any of the 256 strings, found after the insertions that fill the map, is found empty after one more insertion. */
  method FailingRun(i: nat) returns (before: Option<string>, outcome: Outcome, after: Option<string>)
    requires i < 256
    ensures before == Some("v") && outcome == Done && after == Some("")
  {
    var c := Fill();
    var key := Order("v")[i].0;
    FoundBefore(i);
    FoundAfter(i);
    RehashFull(c.Now());
    hide Lookup, Inserted, Filled1, Filled2, Roomy1, Sound, Tables.Bag, Order, BagOf;
    before := c.Find(key, map[]);
    outcome := c.Insert(Z().0, Z().1, 0);
    after := c.Find(key, map[]);
  }

  // ---------- a key inserted twice ----------

  /** A key with the same first home as key (0, 0), and another second one. */
  const OTHER: Key := (0, 1)

  /** Key (0, 0) holds "old" and then "new"; inserting another key brings the old value back. */
  lemma SwapBack()
    ensures var none, first, second := Vacant<Pair>(256), ((0, 0), "old"), ((0, 0), "new");
      && Displaced(Hash, none, none, first, MAX_ITERATIONS) == Placement(true, none[0 := Some(first)], none, first)
      && Displaced(Hash, none[0 := Some(first)], none, second, MAX_ITERATIONS) ==
           Placement(true, none[0 := Some(second)], none[0 := Some(first)], first)
      && Displaced(Hash, none[0 := Some(second)], none[0 := Some(first)], (OTHER, ""), MAX_ITERATIONS) ==
           Placement(true, none[0 := Some(first)], none[0 := Some(second)][1 := Some((OTHER, ""))], (OTHER, ""))
  {
    var none, first, second, other := Vacant<Pair>(256), ((0, 0), "old"), ((0, 0), "new"), (OTHER, "");
    hide Displaced, Hash1, Hash2;
    Homes(256, (0, 0));
    Homes(256, OTHER);
    PlaceFree(256, none, none, first);
    PlaceEvicting(256, none[0 := Some(first)], none, second, first);
    assert none[0 := Some(first)][0 := Some(second)] == none[0 := Some(second)];
    var t1, t2 := none[0 := Some(second)], none[0 := Some(first)];
    var u1, u2 := none[0 := Some(other)], none[0 := Some(second)];
    assert t1[0 := Some(other)] == u1 && t2[0 := Some(second)] == u2;
    BothHomes(Hash, t1, t2, other, MAX_ITERATIONS, second, u1, false, first, u2);
    assert u1[0 := Some(first)] == none[0 := Some(first)];
    BothHomes(Hash, u1, u2, first, MAX_ITERATIONS - 1, other, none[0 := Some(first)],
              true, other, u2[1 := Some(other)]);
  }

  lemma LookupFirst(t1: Table<Key, string>, t2: Table<Key, string>, v: string)
    requires |t1| == |t2| == 256 && t1[0] == Some(((0, 0), v))
    ensures Lookup(Hash, t1, t2, (0, 0)) == Some(v)
  {
    hide Hash1, Hash2;
    Homes(256, (0, 0));
  }

  /** After two insertions of a key its new value is found; after the insertion of another key, the old one. */
  method InsertedTwice() returns (outcome: Outcome, before: Option<string>, after: Option<string>)
    ensures outcome == Done && before == Some("new") && after == Some("old")
  {
    var first, second, other := ((0, 0), "old"), ((0, 0), "new"), (OTHER, "");
    SwapBack();
    hide Displaced, Lookup, Sound, Tables.Bag, BagOf;
    ghost var none: Table<Key, string> := Vacant(256);
    var c := new CuckooMap(Hash, Left, 256);
    outcome := Add(c, first, none[0 := Some(first)], none);
    outcome := Add(c, second, none[0 := Some(second)], none[0 := Some(first)]);
    LookupFirst(c.table1, c.table2, "new");
    before := c.Find((0, 0), map[]);
    outcome := Add(c, other, none[0 := Some(first)], none[0 := Some(second)][1 := Some(other)]);
    LookupFirst(c.table1, c.table2, "old");
    after := c.Find((0, 0), map[]);
  }
}
