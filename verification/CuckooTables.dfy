/** What the operations of the cuckoo map make of its two tables of buckets, as functions. */
module CuckooTables {
  import opened Bytes
  import opened Slots

  type Table<K, V> = seq<Option<(K, V)>>

  const MAX_ITERATIONS: nat := 100
  const MAX_ATTEMPTS: nat := 5

  /** `insert` repeats rehashing for as long as it takes; `OutOfFuel` is the run cut short. */
  datatype Outcome = Done | Threw | OutOfFuel

  function Hash1<K>(hasher: K -> nat, size: nat, k: K): (h: nat)
    requires size > 0
    ensures h < size
  {
    hasher(k) % size
  }

  function Hash2<K>(hasher: K -> nat, size: nat, k: K): (h: nat)
    requires size > 0
    ensures h < size
  {
    hasher(k) / 0x1_0000 % size
  }

  ghost predicate Homed1<K, V>(hasher: K -> nat, t: Table<K, V>) {
    forall s | 0 <= s < |t| && t[s].Some? :: Hash1(hasher, |t|, t[s].value.0) == s
  }

  ghost predicate Homed2<K, V>(hasher: K -> nat, t: Table<K, V>) {
    forall s | 0 <= s < |t| && t[s].Some? :: Hash2(hasher, |t|, t[s].value.0) == s
  }

  // ---------- maps as bags of pairs ----------

  /** The pairs of a map, each once. */
  ghost predicate BagOf<K(!new), V(!new)>(m: map<K, V>, bag: multiset<(K, V)>) {
    forall p: (K, V) :: bag[p] == if p.0 in m && m[p.0] == p.1 then 1 else 0
  }

  lemma NewKey<K(!new), V(!new)>(m: map<K, V>, bag: multiset<(K, V)>, k: K, v: V)
    requires k !in m && BagOf(m, bag)
    ensures BagOf(m[k := v], bag + multiset{(k, v)})
  {
  }

  lemma OldKey<K(!new), V(!new)>(m: map<K, V>, bag: multiset<(K, V)>, k: K, v: V, after: multiset<(K, V)>)
    requires k in m && BagOf(m, bag) && after + multiset{(k, m[k])} == bag + multiset{(k, v)}
    ensures BagOf(m[k := v], after)
  {
    var old_, new_ := (k, m[k]), (k, v);
    forall p: (K, V) ensures after[p] == if p.0 in m[k := v] && m[k := v][p.0] == p.1 then 1 else 0 {
      assert (after + multiset{old_})[p] == (bag + multiset{new_})[p];
    }
  }

  lemma NotAMap<K(!new), V(!new)>(m: map<K, V>, bag: multiset<(K, V)>, k: K, v: V, m': map<K, V>)
    requires k in m && BagOf(m, bag)
    ensures !BagOf(m', bag + multiset{(k, v)})
  {
    var p, q, more := (k, m[k]), (k, v), bag + multiset{(k, v)};
    assert more[p] >= 1 && more[q] >= 1 && (p == q ==> more[p] == 2);
  }

  /** Adding a pair leaves a map exactly when its key is new. */
  lemma InsertKeepsMap<K(!new), V(!new)>(m: map<K, V>, bag: multiset<(K, V)>, k: K, v: V)
    requires BagOf(m, bag)
    ensures (exists m': map<K, V> :: BagOf(m', bag + multiset{(k, v)})) <==> k !in m
  {
    if k !in m {
      NewKey(m, bag, k, v);
    } else {
      forall m': map<K, V> ensures !BagOf(m', bag + multiset{(k, v)}) {
        NotAMap(m, bag, k, v, m');
      }
    }
  }

  // ---------- the two tables ----------

  /** Both tables have `size` slots and every pair is in one of its two homes. */
  ghost predicate Shape<K, V>(hasher: K -> nat, t1: Table<K, V>, t2: Table<K, V>, size: nat) {
    |t1| == |t2| == size > 0 && Homed1(hasher, t1) && Homed2(hasher, t2)
  }

  ghost function Pairs<K, V>(t1: Table<K, V>, t2: Table<K, V>): multiset<(K, V)> { Items(t1) + Items(t2) }

  lemma Sizes<K, V>(hasher: K -> nat, t1: Table<K, V>, t2: Table<K, V>, size: nat)
    requires Shape(hasher, t1, t2, size)
    ensures |t1| == |t2| == size > 0
  {
  }

  /** Putting a pair into its first home; an evicted pair is carried on. */
  lemma Put1<K, V>(hasher: K -> nat, t1: Table<K, V>, t2: Table<K, V>, size: nat, x: (K, V), h: nat,
                   all: multiset<(K, V)>, n: nat)
    requires Shape(hasher, t1, t2, size) && h == Hash1(hasher, size, x.0) < |t1| && Pairs(t1, t2) + multiset{x} == all
    requires n == |Pairs(t1, t2)|
    ensures Shape(hasher, t1[h := Some(x)], t2, size)
    ensures t1[h].None? ==> Pairs(t1[h := Some(x)], t2) == all && |Pairs(t1[h := Some(x)], t2)| == n + 1
    ensures t1[h].Some? ==> Pairs(t1[h := Some(x)], t2) + multiset{t1[h].value} == all
    ensures t1[h].Some? ==> |Pairs(t1[h := Some(x)], t2)| == n
  {
    hide Items, Hash1;
    PutItems(t1, h, x, Items(t2), all);
    assert |Pairs(t1, t2) + multiset{x}| == |all|;
    assert t1[h].Some? ==> |Pairs(t1[h := Some(x)], t2) + multiset{t1[h].value}| == |all|;
  }

  lemma Put2<K, V>(hasher: K -> nat, t1: Table<K, V>, t2: Table<K, V>, size: nat, x: (K, V), h: nat,
                   all: multiset<(K, V)>, n: nat)
    requires Shape(hasher, t1, t2, size) && h == Hash2(hasher, size, x.0) < |t2| && Pairs(t1, t2) + multiset{x} == all
    requires n == |Pairs(t1, t2)|
    ensures Shape(hasher, t1, t2[h := Some(x)], size)
    ensures t2[h].None? ==> Pairs(t1, t2[h := Some(x)]) == all && |Pairs(t1, t2[h := Some(x)])| == n + 1
    ensures t2[h].Some? ==> Pairs(t1, t2[h := Some(x)]) + multiset{t2[h].value} == all
    ensures t2[h].Some? ==> |Pairs(t1, t2[h := Some(x)])| == n
  {
    hide Items, Hash2;
    assert Items(t2) + Items(t1) + multiset{x} == all;
    PutItems(t2, h, x, Items(t1), all);
    var after := t2[h := Some(x)];
    assert Pairs(t1, after) == Items(after) + Items(t1);
    assert |Pairs(t1, t2) + multiset{x}| == |all|;
    assert t2[h].Some? ==> |Pairs(t1, after) + multiset{t2[h].value}| == |all|;
  }

  // ---------- displacement and rehashing as functions of the tables ----------

  datatype Placement<K, V> = Placement(ok: bool, t1: Table<K, V>, t2: Table<K, V>, out: (K, V))

  /** `n` rounds of placing the carried pair in its first home, and the pair evicted there in its second. */
  function Displaced<K, V>(hasher: K -> nat, t1: Table<K, V>, t2: Table<K, V>, x: (K, V), n: nat): (p: Placement<K, V>)
    requires |t1| == |t2| > 0
    ensures |p.t1| == |p.t2| == |t1|
    decreases n, |t1|
  {
    if n == 0 then Placement(false, t1, t2, x) else
      var h1 := Hash1(hasher, |t1|, x.0);
      var u1 := t1[h1 := Some(x)];
      if t1[h1].None? then Placement(true, u1, t2, x) else
        var y := t1[h1].value;
        var h2 := Hash2(hasher, |t2|, y.0);
        var u2 := t2[h2 := Some(y)];
        if t2[h2].None? then Placement(true, u1, u2, y) else Displaced(hasher, u1, u2, t2[h2].value, n - 1)
  }

  /** `moved` elements were moved out of their list; the last of them found no place unless all did. */
  datatype Load<K, V> = Load(ok: bool, t1: Table<K, V>, t2: Table<K, V>, moved: nat)

  /** Inserting the elements from the `i`-th on. */
  function Reload<K, V>(hasher: K -> nat, t1: Table<K, V>, t2: Table<K, V>, all: seq<(K, V)>, i: nat): (l: Load<K, V>)
    requires |t1| == |t2| > 0 && i <= |all|
    ensures l.moved <= |all| && |l.t1| == |l.t2| == |t1|
    decreases |all| - i
  {
    if i == |all| then Load(true, t1, t2, i) else
      var p := Displaced(hasher, t1, t2, all[i], MAX_ITERATIONS);
      if p.ok then Reload(hasher, p.t1, p.t2, all, i + 1) else Load(false, p.t1, p.t2, i + 1)
  }

  /** The first `n` elements are what a move leaves behind. */
  function Moved<T>(residue: T -> T, all: seq<T>, n: nat): (left: seq<T>)
    ensures |left| == |all| && forall i | 0 <= i < |all| :: left[i] == if i < n then residue(all[i]) else all[i]
  {
    seq(|all|, i requires 0 <= i < |all| => if i < n then residue(all[i]) else all[i])
  }

  datatype Rebuild<K, V> = Thrown | Rebuilt(t1: Table<K, V>, t2: Table<K, V>, size: nat, elements: seq<(K, V)>)

  /** Rehashing a list of elements: each attempt doubles the size and starts from what the last one left. */
  function Rehashed<K, V>(hasher: K -> nat, residue: ((K, V)) -> (K, V), size: nat, all: seq<(K, V)>,
                          attempts: nat): (r: Rebuild<K, V>)
    requires size > 0
    ensures r.Rebuilt? ==> |r.elements| == |all| && |r.t1| == |r.t2| == r.size >= 2 * size
    decreases attempts, |all|
  {
    if attempts == 0 then Thrown else
      var l := Reload(hasher, Vacant(2 * size), Vacant(2 * size), all, 0);
      if l.ok then Rebuilt(l.t1, l.t2, 2 * size, all)
      else Rehashed(hasher, residue, 2 * size, Moved(residue, all, l.moved), attempts - 1)
  }

  /** How many elements each failed attempt of a rehash moved. */
  function Failures<K, V>(hasher: K -> nat, residue: ((K, V)) -> (K, V), size: nat, all: seq<(K, V)>, attempts: nat)
    : (counts: seq<nat>)
    requires size > 0
    ensures forall c | c in counts :: c <= |all|
    decreases attempts, |all|
  {
    if attempts == 0 then [] else
      var l := Reload(hasher, Vacant(2 * size), Vacant(2 * size), all, 0);
      if l.ok then []
      else [l.moved] + Failures(hasher, residue, 2 * size, Moved(residue, all, l.moved), attempts - 1)
  }

  /** A list after several attempts that each moved some first elements. */
  function Spent<T>(residue: T -> T, all: seq<T>, counts: seq<nat>): (left: seq<T>)
    ensures |left| == |all|
    decreases |counts|
  {
    if counts == [] then all else Spent(residue, Moved(residue, all, counts[0]), counts[1..])
  }

  function Most(counts: seq<nat>): (n: nat)
    ensures forall c | c in counts :: c <= n
    ensures n == 0 || n in counts
  {
    if counts == [] then 0 else
      var rest := Most(counts[1..]);
      assert forall c | c in counts :: c == counts[0] || c in counts[1..];
      if rest < counts[0] then counts[0] else rest
  }

  /** A move that leaves a copy behind. */
  ghost predicate Copies<T(!new)>(residue: T -> T) { forall x :: residue(x) == x }

  /** The elements that end up in the tables are the old ones after the moves of all failed attempts. */
  lemma {:induction false} RehashElements<K, V>(hasher: K -> nat, residue: ((K, V)) -> (K, V), size: nat,
                                                all: seq<(K, V)>, attempts: nat)
    requires size > 0
    ensures var r := Rehashed(hasher, residue, size, all, attempts);
      r.Rebuilt? ==> r.elements == Spent(residue, all, Failures(hasher, residue, size, all, attempts))
    decreases attempts
  {
    hide Reload;
    if attempts > 0 {
      var l := Reload(hasher, Vacant(2 * size), Vacant(2 * size), all, 0);
      if !l.ok {
        RehashElements(hasher, residue, 2 * size, Moved(residue, all, l.moved), attempts - 1);
      }
    }
  }

  /** The carried pair takes slot `h`; `out` is the pair it evicts, or itself. */
  ghost predicate Put<K, V>(t: Table<K, V>, h: nat, x: (K, V), placed: bool, out: (K, V), after: Table<K, V>) {
    h < |t| && after == t[h := Some(x)] && (if placed then t[h].None? && out == x else t[h] == Some(out))
  }

  lemma {:induction false} FirstHome<K, V>(hasher: K -> nat, t1: Table<K, V>, t2: Table<K, V>, x: (K, V), n: nat,
                                           out: (K, V), u1: Table<K, V>)
    requires |t1| == |t2| > 0 && n > 0 && Put(t1, Hash1(hasher, |t1|, x.0), x, true, out, u1)
    ensures Displaced(hasher, t1, t2, x, n) == Placement(true, u1, t2, out)
  {
  }

  lemma BothHomes<K, V>(hasher: K -> nat, t1: Table<K, V>, t2: Table<K, V>, x: (K, V), n: nat,
                                y: (K, V), u1: Table<K, V>, placed: bool, out: (K, V), u2: Table<K, V>)
    requires |t1| == |t2| > 0 && n > 0
    requires Put(t1, Hash1(hasher, |t1|, x.0), x, false, y, u1) && Put(t2, Hash2(hasher, |t2|, y.0), y, placed, out, u2)
    ensures Displaced(hasher, t1, t2, x, n) ==
      if placed then Placement(true, u1, u2, out) else Displaced(hasher, u1, u2, out, n - 1)
  {
  }

  lemma ReloadNext<K, V>(hasher: K -> nat, t1: Table<K, V>, t2: Table<K, V>, all: seq<(K, V)>, i: nat)
    requires |t1| == |t2| > 0 && i < |all|
    ensures var p := Displaced(hasher, t1, t2, all[i], MAX_ITERATIONS);
      Reload(hasher, t1, t2, all, i) ==
        if p.ok then Reload(hasher, p.t1, p.t2, all, i + 1) else Load(false, p.t1, p.t2, i + 1)
  {
  }

  lemma {:induction false} ReloadDone<K, V>(hasher: K -> nat, t1: Table<K, V>, t2: Table<K, V>, all: seq<(K, V)>)
    requires |t1| == |t2| > 0
    ensures Reload(hasher, t1, t2, all, |all|) == Load(true, t1, t2, |all|)
  {
  }

  /** The pairs of the occupied slots, slot by slot. */
  function Occupied<K, V>(t: Table<K, V>): seq<(K, V)> {
    if t == [] then [] else
      Occupied(t[..|t| - 1]) + if t[|t| - 1].Some? then [t[|t| - 1].value] else []
  }

  lemma {:induction false} OccupiedItems<K, V>(t: Table<K, V>)
    ensures multiset(Occupied(t)) == Items(t)
  {
    if t != [] {
      OccupiedItems(t[..|t| - 1]);
    }
  }

  /** Where `find` looks. */
  function Lookup<K(==), V>(hasher: K -> nat, t1: Table<K, V>, t2: Table<K, V>, k: K): Option<V>
    requires |t1| == |t2| > 0
  {
    var a, b := t1[Hash1(hasher, |t1|, k)], t2[Hash2(hasher, |t2|, k)];
    if a.Some? && a.value.0 == k then Some(a.value.1)
    else if b.Some? && b.value.0 == k then Some(b.value.1)
    else None
  }

  lemma {:induction false} NotDisplaced<K, V>(hasher: K -> nat, t1: Table<K, V>, t2: Table<K, V>, x: (K, V))
    requires |t1| == |t2| > 0
    ensures Displaced(hasher, t1, t2, x, 0) == Placement(false, t1, t2, x)
  {
  }

  lemma RehashedNext<K, V>(hasher: K -> nat, residue: ((K, V)) -> (K, V), size: nat, all: seq<(K, V)>, attempts: nat)
    requires size > 0 && attempts > 0
    ensures var l := Reload(hasher, Vacant(size * 2), Vacant(size * 2), all, 0);
      Rehashed(hasher, residue, size, all, attempts) == if l.ok then Rebuilt(l.t1, l.t2, size * 2, all)
        else Rehashed(hasher, residue, size * 2, Moved(residue, all, l.moved), attempts - 1)
  {
  }

  lemma {:induction false} RehashGivenUp<K, V>(hasher: K -> nat, residue: ((K, V)) -> (K, V), size: nat, all: seq<(K,
                                               V)>)
    requires size > 0
    ensures Rehashed(hasher, residue, size, all, 0) == Thrown
  {
  }

  lemma NoneYet<K, V>(t: Table<K, V>)
    ensures Occupied(t[..0]) == []
  {
  }

  lemma OccupiedNext<K, V>(t: Table<K, V>, s: nat)
    requires s < |t|
    ensures Occupied(t[..s + 1]) == Occupied(t[..s]) + if t[s].Some? then [t[s].value] else []
  {
    assert t[..s + 1][..s] == t[..s];
  }

  // ---------- what the operations keep ----------

  lemma BagSnoc<T>(all: seq<T>, i: nat)
    requires i < |all|
    ensures multiset(all[..i + 1]) == multiset(all[..i]) + multiset{all[i]}
  {
    assert all[..i + 1] == all[..i] + [all[i]];
  }

  /** The tables and the carried pair, if any, hold `all`. */
  ghost predicate Holding<K, V>(hasher: K -> nat, size: nat, t1: Table<K, V>, t2: Table<K, V>, carried: Option<(K, V)>,
                                all: multiset<(K, V)>) {
    Shape(hasher, t1, t2, size) && Pairs(t1, t2) + One(carried) == all
  }

  lemma HoldingSizes<K, V>(hasher: K -> nat, size: nat, t1: Table<K, V>, t2: Table<K, V>, carried: Option<(K, V)>,
                           all: multiset<(K, V)>)
    requires Holding(hasher, size, t1, t2, carried, all)
    ensures |t1| == |t2| == size > 0
  {
  }

  lemma Holding1<K, V>(hasher: K -> nat, size: nat, t1: Table<K, V>, t2: Table<K, V>, x: (K, V), h: nat,
                       all: multiset<(K, V)>)
    requires Holding(hasher, size, t1, t2, Some(x), all) && size > 0 && h == Hash1(hasher, size, x.0) < |t1|
    ensures Holding(hasher, size, t1[h := Some(x)], t2, t1[h], all)
  {
    hide Shape, Pairs, Hash1;
    assert Pairs(t1[h := Some(x)], t2) + multiset{} == Pairs(t1[h := Some(x)], t2);
    Put1(hasher, t1, t2, size, x, h, all, |Pairs(t1, t2)|);
  }

  lemma Holding2<K, V>(hasher: K -> nat, size: nat, t1: Table<K, V>, t2: Table<K, V>, x: (K, V), h: nat,
                       all: multiset<(K, V)>)
    requires Holding(hasher, size, t1, t2, Some(x), all) && size > 0 && h == Hash2(hasher, size, x.0) < |t2|
    ensures Holding(hasher, size, t1, t2[h := Some(x)], t2[h], all)
  {
    hide Shape, Pairs, Hash2;
    assert Pairs(t1, t2[h := Some(x)]) + multiset{} == Pairs(t1, t2[h := Some(x)]);
    Put2(hasher, t1, t2, size, x, h, all, |Pairs(t1, t2)|);
  }

  /** Displacement keeps every pair in a home; what it hands back is the one pair without a place. */
  lemma {:induction false} DisplacedHolds<K, V>(hasher: K -> nat, size: nat, t1: Table<K, V>, t2: Table<K, V>,
                                                x: (K, V), n: nat, all: multiset<(K, V)>)
    requires Holding(hasher, size, t1, t2, Some(x), all)
    ensures |t1| == |t2| == size > 0
    ensures var p := Displaced(hasher, t1, t2, x, n);
      Holding(hasher, size, p.t1, p.t2, if p.ok then None else Some(p.out), all)
    decreases n
  {
    HoldingSizes(hasher, size, t1, t2, Some(x), all);
    hide Holding, Hash1, Hash2, Displaced;
    if n == 0 {
      NotDisplaced(hasher, t1, t2, x);
    } else {
      var h1 := Hash1(hasher, size, x.0);
      var u1 := t1[h1 := Some(x)];
      Holding1(hasher, size, t1, t2, x, h1, all);
      if t1[h1].None? {
        FirstHome(hasher, t1, t2, x, n, x, u1);
      } else {
        var y := t1[h1].value;
        var h2 := Hash2(hasher, size, y.0);
        var u2 := t2[h2 := Some(y)];
        Holding2(hasher, size, u1, t2, y, h2, all);
        if t2[h2].None? {
          BothHomes(hasher, t1, t2, x, n, y, u1, true, y, u2);
        } else {
          BothHomes(hasher, t1, t2, x, n, y, u1, false, t2[h2].value, u2);
          var less := n - 1;
          DisplacedHolds(hasher, size, u1, u2, t2[h2].value, less, all);
        }
      }
    }
  }

  /** Taking up another pair. */
  lemma TakeUp<K, V>(hasher: K -> nat, size: nat, t1: Table<K, V>, t2: Table<K, V>, x: (K, V), all: multiset<(K, V)>)
    requires Holding(hasher, size, t1, t2, None, all)
    ensures Holding(hasher, size, t1, t2, Some(x), all + multiset{x})
  {
    assert Pairs(t1, t2) + multiset{} == Pairs(t1, t2);
  }

  lemma NothingHeld<K, V>(hasher: K -> nat, size: nat)
    requires size > 0
    ensures Holding(hasher, size, Vacant<(K, V)>(size), Vacant<(K, V)>(size), None, multiset{})
  {
    NoItems<(K, V)>(size);
  }

  lemma AllHeld<K, V>(hasher: K -> nat, size: nat, t1: Table<K, V>, t2: Table<K, V>, all: multiset<(K, V)>)
    requires Holding(hasher, size, t1, t2, None, all)
    ensures Shape(hasher, t1, t2, size) && Pairs(t1, t2) == all
  {
    assert Pairs(t1, t2) + multiset{} == Pairs(t1, t2);
  }

  lemma {:induction false} ReloadHolds<K, V>(hasher: K -> nat, size: nat, t1: Table<K, V>, t2: Table<K, V>,
                                             all: seq<(K, V)>, i: nat)
    requires i <= |all| && Holding(hasher, size, t1, t2, None, multiset(all[..i]))
    ensures |t1| == |t2| == size > 0
    ensures var l := Reload(hasher, t1, t2, all, i); l.ok ==> Holding(hasher, size, l.t1, l.t2, None, multiset(all))
    decreases |all| - i
  {
    hide *;
    HoldingSizes(hasher, size, t1, t2, None, multiset(all[..i]));
    if i == |all| {
      ReloadDone(hasher, t1, t2, all);
      assert all[..i] == all;
    } else {
      var x, next, before := all[i], i + 1, multiset(all[..i]);
      TakeUp(hasher, size, t1, t2, x, before);
      DisplacedHolds(hasher, size, t1, t2, x, MAX_ITERATIONS, before + multiset{x});
      ReloadNext(hasher, t1, t2, all, i);
      var p := Displaced(hasher, t1, t2, x, MAX_ITERATIONS);
      if p.ok {
        BagSnoc(all, i);
        ReloadHolds(hasher, size, p.t1, p.t2, all, next);
      }
    }
  }

  /** The tables after a rehash hold what its last attempt started from. */
  lemma {:induction false} RehashedHolds<K, V>(hasher: K -> nat, residue: ((K, V)) -> (K, V), size: nat,
                                               all: seq<(K, V)>, attempts: nat)
    requires size > 0
    ensures var r := Rehashed(hasher, residue, size, all, attempts);
      r.Rebuilt? ==> Shape(hasher, r.t1, r.t2, r.size) && Pairs(r.t1, r.t2) == multiset(r.elements)
    decreases attempts
  {
    hide Reload, Shape, Pairs, Holding;
    if attempts > 0 {
      NothingHeld<K, V>(hasher, 2 * size);
      assert multiset(all[..0]) == multiset{};
      ReloadHolds(hasher, 2 * size, Vacant(2 * size), Vacant(2 * size), all, 0);
      var l := Reload(hasher, Vacant(2 * size), Vacant(2 * size), all, 0);
      if l.ok {
        AllHeld(hasher, 2 * size, l.t1, l.t2, multiset(all));
      } else {
        RehashedHolds(hasher, residue, 2 * size, Moved(residue, all, l.moved), attempts - 1);
      }
    }
  }

  // ---------- when contents survive ----------

  /** What a move leaves behind stays when it is moved again, as an empty string does. */
  ghost predicate Idempotent<T(!new)>(residue: T -> T) { forall x :: residue(residue(x)) == residue(x) }

  /** The first `n` elements are what their moves leave. */
  ghost predicate Unchanged<T>(residue: T -> T, all: seq<T>, n: nat) {
    forall i | 0 <= i < n && i < |all| :: residue(all[i]) == all[i]
  }

  /** No element that a move would change has become more frequent. */
  ghost predicate Worn<T(!new)>(residue: T -> T, before: multiset<T>, after: multiset<T>) {
    forall y | residue(y) != y :: after[y] <= before[y]
  }

  ghost predicate Lost<T(!new)>(residue: T -> T, before: multiset<T>, after: multiset<T>) {
    exists y :: residue(y) != y && after[y] < before[y]
  }

  lemma UnchangedMoved<T>(residue: T -> T, all: seq<T>, n: nat)
    requires Unchanged(residue, all, n)
    ensures Moved(residue, all, n) == all
  {
  }

  lemma {:induction false} UnchangedSpent<T>(residue: T -> T, all: seq<T>, counts: seq<nat>)
    requires Unchanged(residue, all, Most(counts))
    ensures Spent(residue, all, counts) == all
    decreases |counts|
  {
    if counts != [] {
      assert counts[0] in counts && forall c | c in counts[1..] :: c in counts;
      UnchangedMoved(residue, all, counts[0]);
      UnchangedSpent(residue, all, counts[1..]);
    }
  }

  /** Moving the same first elements again changes nothing more. */
  lemma {:induction false} SpentOnce<T(!new)>(residue: T -> T, all: seq<T>, counts: seq<nat>)
    requires Idempotent(residue)
    ensures Spent(residue, all, counts) == Moved(residue, all, Most(counts))
    decreases |counts|
  {
    if counts == [] {
      assert Moved(residue, all, 0) == all;
    } else {
      SpentOnce(residue, Moved(residue, all, counts[0]), counts[1..]);
      assert Moved(residue, Moved(residue, all, counts[0]), Most(counts[1..])) == Moved(residue, all, Most(counts));
    }
  }

  lemma {:induction false} MovedWorn<T(!new)>(residue: T -> T, all: seq<T>, n: nat)
    requires Idempotent(residue)
    ensures Worn(residue, multiset(all), multiset(Moved(residue, all, n)))
    ensures !Unchanged(residue, all, n) ==> Lost(residue, multiset(all), multiset(Moved(residue, all, n)))
  {
    if all != [] {
      var k := |all| - 1;
      var shorter, last := all[..k], all[k];
      var last' := if k < n then residue(last) else last;
      MovedWorn(residue, shorter, n);
      MovedSnoc(residue, shorter, last, n);
      assert all == shorter + [last];
      hide Moved, Unchanged;
      var before, after := multiset(shorter), multiset(Moved(residue, shorter, n));
      WornSnoc(residue, before, after, last, last', !Unchanged(residue, shorter, n));
    }
  }

  lemma MovedSnoc<T>(residue: T -> T, all: seq<T>, x: T, n: nat)
    ensures var x' := if |all| < n then residue(x) else x;
      && multiset(Moved(residue, all + [x], n)) == multiset(Moved(residue, all, n)) + multiset{x'}
      && multiset(all + [x]) == multiset(all) + multiset{x}
      && (Unchanged(residue, all + [x], n) <==> Unchanged(residue, all, n) && x' == x)
  {
    var x' := if |all| < n then residue(x) else x;
    assert Moved(residue, all + [x], n) == Moved(residue, all, n) + [x'];
    assert (all + [x])[|all|] == x && forall i | 0 <= i < |all| :: (all + [x])[i] == all[i];
  }

  lemma WornSnoc<T(!new)>(residue: T -> T, before: multiset<T>, after: multiset<T>, x: T, x': T, lost: bool)
    requires Idempotent(residue) && Worn(residue, before, after) && (lost ==> Lost(residue, before, after))
    requires x' == x || x' == residue(x)
    ensures Worn(residue, before + multiset{x}, after + multiset{x'})
    ensures lost || x' != x ==> Lost(residue, before + multiset{x}, after + multiset{x'})
  {
    if x' != x {
      assert (after + multiset{x'})[x] < (before + multiset{x})[x];
    } else if lost {
      var y :| residue(y) != y && after[y] < before[y];
      assert (after + multiset{x'})[y] < (before + multiset{x})[y];
    }
  }

  /** Contents that survive exactly if `clean`; without idempotence, if `clean`. */
  ghost predicate Survives<T(!new)>(residue: T -> T, before: multiset<T>, after: multiset<T>, clean: bool) {
    && (clean ==> after == before)
    && (Idempotent(residue) ==> Worn(residue, before, after) && (!clean ==> Lost(residue, before, after)))
  }

  lemma SurvivesExactly<T(!new)>(residue: T -> T, before: multiset<T>, after: multiset<T>, clean: bool)
    requires Survives(residue, before, after, clean) && Idempotent(residue)
    ensures after == before <==> clean
  {
  }

  lemma SurvivesBoth<T(!new)>(residue: T -> T, a: multiset<T>, b: multiset<T>, c: multiset<T>,
                              first: bool, second: bool)
    requires Survives(residue, a, b, first) && Survives(residue, b, c, second)
    ensures Survives(residue, a, c, first && second)
  {
    if Idempotent(residue) && !first {
      var y :| residue(y) != y && b[y] < a[y];
      assert c[y] < a[y];
    }
  }

  lemma SurvivesWith<T(!new)>(residue: T -> T, a: multiset<T>, b: multiset<T>, x: T, clean: bool)
    requires Survives(residue, a, b, clean)
    ensures Survives(residue, a + multiset{x}, b + multiset{x}, clean)
  {
    if Idempotent(residue) && !clean {
      var y :| residue(y) != y && b[y] < a[y];
      assert (b + multiset{x})[y] < (a + multiset{x})[y];
    }
  }

  /** In a rehash, every element that a failed attempt moved is what its move leaves. */
  ghost predicate RehashClean<K, V>(hasher: K -> nat, residue: ((K, V)) -> (K, V), size: nat, all: seq<(K, V)>)
    requires size > 0
  {
    Unchanged(residue, all, Most(Failures(hasher, residue, size, all, MAX_ATTEMPTS)))
  }

  lemma {:induction false} RehashSurvives<K(!new), V(!new)>(hasher: K -> nat, residue: ((K, V)) -> (K, V), size: nat,
                                            all: seq<(K, V)>)
    requires size > 0 && Rehashed(hasher, residue, size, all, MAX_ATTEMPTS).Rebuilt?
    ensures Survives(residue, multiset(all), multiset(Rehashed(hasher, residue, size, all, MAX_ATTEMPTS).elements),
                     RehashClean(hasher, residue, size, all))
  {
    RehashElements(hasher, residue, size, all, MAX_ATTEMPTS);
    hide Rehashed, Spent, Moved, Unchanged, Most;
    var counts := Failures(hasher, residue, size, all, MAX_ATTEMPTS);
    if RehashClean(hasher, residue, size, all) { UnchangedSpent(residue, all, counts); }
    if Idempotent(residue) {
      SpentOnce(residue, all, counts);
      MovedWorn(residue, all, Most(counts));
    }
  }

  /** A rehash that returns keeps every element that its failed attempts did not change, in particular all of them if
      the first attempt succeeds; if what a move leaves stays when moved, that is also the only way to keep the
      contents. */
  lemma {:induction false} RehashKeeps<K(!new), V(!new)>(hasher: K -> nat, residue: ((K, V)) -> (K, V), size: nat,
                                         all: seq<(K, V)>)
    requires size > 0 && Rehashed(hasher, residue, size, all, MAX_ATTEMPTS).Rebuilt?
    ensures RehashClean(hasher, residue, size, all) ==>
      Rehashed(hasher, residue, size, all, MAX_ATTEMPTS).elements == all
    ensures Idempotent(residue) ==>
      (multiset(Rehashed(hasher, residue, size, all, MAX_ATTEMPTS).elements) == multiset(all)
        <==> RehashClean(hasher, residue, size, all))
    ensures Reload(hasher, Vacant(2 * size), Vacant(2 * size), all, 0).ok ==> RehashClean(hasher, residue, size, all)
  {
    RehashSurvives(hasher, residue, size, all);
    RehashElements(hasher, residue, size, all, MAX_ATTEMPTS);
    FirstSucceeds(hasher, residue, size, all);
    hide Rehashed, Reload, Failures, Survives;
    var r := Rehashed(hasher, residue, size, all, MAX_ATTEMPTS);
    if RehashClean(hasher, residue, size, all) {
      UnchangedSpent(residue, all, Failures(hasher, residue, size, all, MAX_ATTEMPTS));
    }
    if Idempotent(residue) {
      SurvivesExactly(residue, multiset(all), multiset(r.elements), RehashClean(hasher, residue, size, all));
    }
  }

  lemma {:induction false} FirstSucceeds<K, V>(hasher: K -> nat, residue: ((K, V)) -> (K, V), size: nat, all: seq<(K,
                                               V)>)
    requires size > 0
    ensures Reload(hasher, Vacant(2 * size), Vacant(2 * size), all, 0).ok ==>
      Failures(hasher, residue, size, all, MAX_ATTEMPTS) == []
  {
    hide Reload;
  }

  // ---------- insertion ----------

  /** The fields of a map. */
  datatype Tables<K, V> = Tables(t1: Table<K, V>, t2: Table<K, V>, size: nat, count: nat) {
    predicate Sized() { |t1| == |t2| == size > 0 }

    /** The elements in the order in which a rehash collects them. */
    function Stored(): seq<(K, V)> { Occupied(t1) + Occupied(t2) }

    ghost function Bag(): multiset<(K, V)> { Pairs(t1, t2) }
  }

  /** Every pair is in one of its homes and the counter is the number of occupied buckets. */
  ghost predicate Sound<K, V>(hasher: K -> nat, s: Tables<K, V>) {
    Shape(hasher, s.t1, s.t2, s.size) && s.count == |s.Bag()|
  }

  /** A call's outcome; its tables mean something only if it is done. */
  datatype Settled<K, V> = Settled(outcome: Outcome, tables: Tables<K, V>)

  /** A new map. */
  function Emptied<K, V>(size: nat): Tables<K, V> { Tables(Vacant(size), Vacant(size), size, 0) }

  /** What a call returned, and the tables it left if it is done. */
  ghost predicate Settles<K, V>(r: Settled<K, V>, outcome: Outcome, now: Tables<K, V>) {
    outcome == r.outcome && (outcome == Done ==> now == r.tables)
  }

  function Displacing<K, V>(hasher: K -> nat, s: Tables<K, V>, x: (K, V)): Placement<K, V>
    requires s.Sized()
  {
    Displaced(hasher, s.t1, s.t2, x, MAX_ITERATIONS)
  }

  function Rehashing<K, V>(hasher: K -> nat, residue: ((K, V)) -> (K, V), s: Tables<K, V>): (r: Rebuild<K, V>)
    requires s.Sized()
    ensures r.Rebuilt? ==> |r.t1| == |r.t2| == r.size > 0
  {
    Rehashed(hasher, residue, s.size, s.Stored(), MAX_ATTEMPTS)
  }

  /** The tables after displacement, successful or not. */
  function Pushed<K, V>(hasher: K -> nat, s: Tables<K, V>, x: (K, V)): (after: Tables<K, V>)
    requires s.Sized()
    ensures after.Sized()
  {
    var p := Displacing(hasher, s, x);
    Tables(p.t1, p.t2, s.size, s.count + if p.ok then 1 else 0)
  }

  function Rebuilding<K, V>(hasher: K -> nat, residue: ((K, V)) -> (K, V), s: Tables<K, V>): (after: Tables<K, V>)
    requires s.Sized() && Rehashing(hasher, residue, s).Rebuilt?
    ensures after.Sized()
  {
    var r := Rehashing(hasher, residue, s);
    Tables(r.t1, r.t2, r.size, |r.elements|)
  }

  /** Displacement, and after it rehashing until the pair left over fits. */
  function Placed<K, V>(hasher: K -> nat, residue: ((K, V)) -> (K, V), s: Tables<K, V>, x: (K, V), fuel: nat)
    : Settled<K, V>
    requires s.Sized()
    decreases fuel, s.size, 1
  {
    var p := Displacing(hasher, s, x);
    if p.ok then Settled(Done, Pushed(hasher, s, x))
    else Retried(hasher, residue, Pushed(hasher, s, x), p.out, fuel)
  }

  function Retried<K, V>(hasher: K -> nat, residue: ((K, V)) -> (K, V), s: Tables<K, V>, x: (K, V), fuel: nat)
    : Settled<K, V>
    requires s.Sized()
    decreases fuel, s.size, 0
  {
    if fuel == 0 then Settled(OutOfFuel, s)
    else if Rehashing(hasher, residue, s).Thrown? then Settled(Threw, s)
    else Placed(hasher, residue, Rebuilding(hasher, residue, s), x, fuel - 1)
  }

  lemma {:induction false} PlacedNext<K, V>(hasher: K -> nat, residue: ((K, V)) -> (K, V), s: Tables<K, V>, x: (K, V),
                                            fuel: nat)
    requires s.Sized()
    ensures var p, after := Displacing(hasher, s, x), Pushed(hasher, s, x);
      Placed(hasher, residue, s, x, fuel) ==
        if p.ok then Settled(Done, after) else Retried(hasher, residue, after, p.out, fuel)
  {
  }

  lemma {:induction false} RetriedNext<K, V>(hasher: K -> nat, residue: ((K, V)) -> (K, V), s: Tables<K, V>, x: (K,
                                             V), fuel: nat, less: nat)
    requires s.Sized() && fuel == less + 1
    ensures Retried(hasher, residue, s, x, fuel) ==
      if Rehashing(hasher, residue, s).Thrown? then Settled(Threw, s)
      else Placed(hasher, residue, Rebuilding(hasher, residue, s), x, less)
  {
  }

  lemma {:induction false} RetriedOut<K, V>(hasher: K -> nat, residue: ((K, V)) -> (K, V), s: Tables<K, V>, x: (K, V))
    requires s.Sized()
    ensures Retried(hasher, residue, s, x, 0) == Settled(OutOfFuel, s)
  {
  }

  lemma {:induction false} PlacedSized<K, V>(hasher: K -> nat, residue: ((K, V)) -> (K, V), s: Tables<K, V>, x: (K, V),
                                             fuel: nat)
    requires s.Sized()
    ensures Placed(hasher, residue, s, x, fuel).tables.Sized() && Retried(hasher, residue, s, x, fuel).tables.Sized()
    decreases fuel, 1
  {
    RetriedSized(hasher, residue, s, x, fuel);
    RetriedSized(hasher, residue, Pushed(hasher, s, x), Displacing(hasher, s, x).out, fuel);
  }

  lemma {:induction false} RetriedSized<K, V>(hasher: K -> nat, residue: ((K, V)) -> (K, V), s: Tables<K, V>,
                                              x: (K, V), fuel: nat)
    requires s.Sized()
    ensures Retried(hasher, residue, s, x, fuel).tables.Sized()
    decreases fuel, 0
  {
    if fuel > 0 && Rehashing(hasher, residue, s).Rebuilt? {
      PlacedSized(hasher, residue, Rebuilding(hasher, residue, s), x, fuel - 1);
    }
  }

  /** `insert`: a map that is full rehashes first. */
  function Inserted<K, V>(hasher: K -> nat, residue: ((K, V)) -> (K, V), s: Tables<K, V>, x: (K, V), fuel: nat)
    : Settled<K, V>
    requires s.Sized()
  {
    if s.count >= s.size then Retried(hasher, residue, s, x, fuel + 1) else Placed(hasher, residue, s, x, fuel)
  }

  /** No rehash of the call had a failed attempt that moved an element which does not survive its move. */
  ghost predicate PlacedClean<K, V>(hasher: K -> nat, residue: ((K, V)) -> (K, V), s: Tables<K, V>, x: (K, V),
                                    fuel: nat)
    requires s.Sized()
    decreases fuel, s.size, 1
  {
    var p := Displacing(hasher, s, x);
    !p.ok ==> RetriedClean(hasher, residue, Pushed(hasher, s, x), p.out, fuel)
  }

  ghost predicate RetriedClean<K, V>(hasher: K -> nat, residue: ((K, V)) -> (K, V), s: Tables<K, V>, x: (K, V),
                                     fuel: nat)
    requires s.Sized()
    decreases fuel, s.size, 0
  {
    fuel > 0 && Rehashing(hasher, residue, s).Rebuilt? ==>
      && RehashClean(hasher, residue, s.size, s.Stored())
      && PlacedClean(hasher, residue, Rebuilding(hasher, residue, s), x, fuel - 1)
  }

  ghost predicate InsertedClean<K, V>(hasher: K -> nat, residue: ((K, V)) -> (K, V), s: Tables<K, V>, x: (K, V),
                                      fuel: nat)
    requires s.Sized()
  {
    if s.count >= s.size then RetriedClean(hasher, residue, s, x, fuel + 1)
    else PlacedClean(hasher, residue, s, x, fuel)
  }

  /** An insertion that returns: it added the pair and kept the others exactly if it was clean. */
  ghost predicate Added<K(!new), V(!new)>(hasher: K -> nat, residue: ((K, V)) -> (K, V), s: Tables<K, V>, x: (K, V),
                                          r: Settled<K, V>, clean: bool) {
    r.outcome == Done ==>
      && Sound(hasher, r.tables) && r.tables.count == s.count + 1
      && Survives(residue, s.Bag() + multiset{x}, r.tables.Bag(), clean)
  }

  lemma SoundSized<K, V>(hasher: K -> nat, s: Tables<K, V>)
    requires Sound(hasher, s)
    ensures s.Sized()
  {
  }

  lemma PushedSound<K, V>(hasher: K -> nat, s: Tables<K, V>, x: (K, V))
    requires Sound(hasher, s)
    ensures s.Sized()
    ensures var p, after := Displacing(hasher, s, x), Pushed(hasher, s, x);
      && Sound(hasher, after) && after.count == s.count + (if p.ok then 1 else 0)
      && after.Bag() + (if p.ok then multiset{} else multiset{p.out}) == s.Bag() + multiset{x}
  {
    DisplacedHolds(hasher, s.size, s.t1, s.t2, x, MAX_ITERATIONS, s.Bag() + multiset{x});
    hide Displaced, Shape, Pairs;
    var p, after := Displacing(hasher, s, x), Pushed(hasher, s, x);
    var out := if p.ok then multiset{} else multiset{p.out};
    assert |after.Bag() + out| == |s.Bag() + multiset{x}|;
  }

  lemma StoredBag<K, V>(hasher: K -> nat, s: Tables<K, V>)
    requires Sound(hasher, s)
    ensures multiset(s.Stored()) == s.Bag() && |s.Stored()| == s.count
  {
    OccupiedItems(s.t1);
    OccupiedItems(s.t2);
    hide Occupied, Items, Shape;
    assert |multiset(s.Stored())| == |s.Stored()|;
  }

  lemma RebuildingSound<K(!new), V(!new)>(hasher: K -> nat, residue: ((K, V)) -> (K, V), s: Tables<K, V>)
    requires Sound(hasher, s) && s.Sized() && Rehashing(hasher, residue, s).Rebuilt?
    ensures var after := Rebuilding(hasher, residue, s);
      && Sound(hasher, after) && after.count == s.count
      && after.Bag() == multiset(Rehashing(hasher, residue, s).elements)
      && Survives(residue, s.Bag(), after.Bag(), RehashClean(hasher, residue, s.size, s.Stored()))
  {
    StoredBag(hasher, s);
    RehashedHolds(hasher, residue, s.size, s.Stored(), MAX_ATTEMPTS);
    RehashSurvives(hasher, residue, s.size, s.Stored());
    hide Rehashed, Shape, Pairs, Occupied, Survives, RehashClean;
    var elements := Rehashing(hasher, residue, s).elements;
    assert |multiset(elements)| == |elements|;
  }

  lemma AddedAtOnce<K(!new), V(!new)>(hasher: K -> nat, residue: ((K, V)) -> (K, V), s: Tables<K, V>, x: (K, V),
                                      after: Tables<K, V>)
    requires Sound(hasher, after) && after.count == s.count + 1 && after.Bag() == s.Bag() + multiset{x}
    ensures Added(hasher, residue, s, x, Settled(Done, after), true)
  {
  }

  lemma {:induction false} PlacedHolds<K(!new), V(!new)>(hasher: K -> nat, residue: ((K, V)) -> (K, V),
                                                         s: Tables<K, V>, x: (K, V), fuel: nat)
    requires Sound(hasher, s)
    ensures s.Sized() && Added(hasher, residue, s, x, Placed(hasher, residue, s, x, fuel),
                               PlacedClean(hasher, residue, s, x, fuel))
    decreases fuel, 1
  {
    SoundSized(hasher, s);
    PushedSound(hasher, s, x);
    hide Displacing, Pushed, Retried, RetriedClean, Survives, Sound, Tables.Bag;
    var p, after := Displacing(hasher, s, x), Pushed(hasher, s, x);
    if p.ok {
      assert after.Bag() + multiset{} == after.Bag();
      AddedAtOnce(hasher, residue, s, x, after);
    } else {
      RetriedHolds(hasher, residue, after, p.out, fuel);
    }
  }

  lemma {:induction false} RetriedHolds<K(!new), V(!new)>(hasher: K -> nat, residue: ((K, V)) -> (K, V),
                                                          s: Tables<K, V>, x: (K, V), fuel: nat)
    requires Sound(hasher, s)
    ensures s.Sized() && Added(hasher, residue, s, x, Retried(hasher, residue, s, x, fuel),
                               RetriedClean(hasher, residue, s, x, fuel))
    decreases fuel, 0
  {
    SoundSized(hasher, s);
    hide Placed, PlacedClean, Rehashing, Rebuilding, RehashClean, Survives, Sound, Tables.Bag, Tables.Stored;
    if fuel > 0 && Rehashing(hasher, residue, s).Rebuilt? {
      RebuildingSound(hasher, residue, s);
      var after := Rebuilding(hasher, residue, s);
      PlacedHolds(hasher, residue, after, x, fuel - 1);
      var r, first := Placed(hasher, residue, after, x, fuel - 1), RehashClean(hasher, residue, s.size, s.Stored());
      var second := PlacedClean(hasher, residue, after, x, fuel - 1);
      SurvivesWith(residue, s.Bag(), after.Bag(), x, first);
      if r.outcome == Done {
        SurvivesBoth(residue, s.Bag() + multiset{x}, after.Bag() + multiset{x}, r.tables.Bag(), first, second);
      }
    }
  }

  /** An insertion that returns keeps the tables sound and counts one more; it adds exactly its pair if it is clean, and
      only then if what a move leaves stays when moved. */
  lemma InsertedHolds<K(!new), V(!new)>(hasher: K -> nat, residue: ((K, V)) -> (K, V), s: Tables<K, V>, x: (K, V),
                                        fuel: nat)
    requires Sound(hasher, s)
    ensures s.Sized()
    ensures var r := Inserted(hasher, residue, s, x, fuel);
      r.outcome == Done ==>
        && Sound(hasher, r.tables) && r.tables.count == s.count + 1
        && (InsertedClean(hasher, residue, s, x, fuel) ==> r.tables.Bag() == s.Bag() + multiset{x})
        && (Idempotent(residue) ==>
              (r.tables.Bag() == s.Bag() + multiset{x} <==> InsertedClean(hasher, residue, s, x, fuel)))
  {
    SoundSized(hasher, s);
    hide Placed, PlacedClean, Retried, RetriedClean, Sound, Tables.Bag, Idempotent, Worn, Lost;
    var r, clean := Inserted(hasher, residue, s, x, fuel), InsertedClean(hasher, residue, s, x, fuel);
    if s.count >= s.size {
      RetriedHolds(hasher, residue, s, x, fuel + 1);
    } else {
      PlacedHolds(hasher, residue, s, x, fuel);
    }
    if r.outcome == Done && Idempotent(residue) {
      SurvivesExactly(residue, s.Bag() + multiset{x}, r.tables.Bag(), clean);
    }
  }

  /** A call without a rehash is clean. */
  lemma CleanAtOnce<K, V>(hasher: K -> nat, residue: ((K, V)) -> (K, V), s: Tables<K, V>, x: (K, V), fuel: nat)
    requires s.Sized() && s.count < s.size && Displacing(hasher, s, x).ok
    ensures InsertedClean(hasher, residue, s, x, fuel)
  {
  }

  /** And so is a call whose moves leave copies behind. */
  lemma {:induction false} CopiesPlacedClean<K(!new), V(!new)>(hasher: K -> nat, residue: ((K, V)) -> (K, V),
                                                               s: Tables<K, V>, x: (K, V), fuel: nat)
    requires s.Sized() && Copies(residue)
    ensures PlacedClean(hasher, residue, s, x, fuel) && RetriedClean(hasher, residue, s, x, fuel)
    decreases fuel, 1
  {
    hide Displacing, Pushed, Rehashing, Rebuilding, Failures, Tables.Stored;
    CopiesRetriedClean(hasher, residue, s, x, fuel);
    CopiesRetriedClean(hasher, residue, Pushed(hasher, s, x), Displacing(hasher, s, x).out, fuel);
  }

  lemma {:induction false} CopiesRetriedClean<K(!new), V(!new)>(hasher: K -> nat, residue: ((K, V)) -> (K, V),
                                                                s: Tables<K, V>, x: (K, V), fuel: nat)
    requires s.Sized() && Copies(residue)
    ensures RetriedClean(hasher, residue, s, x, fuel)
    decreases fuel, 0
  {
    hide Displacing, Pushed, Rehashing, Rebuilding, Failures, Tables.Stored;
    if fuel > 0 && Rehashing(hasher, residue, s).Rebuilt? {
      CopiesPlacedClean(hasher, residue, Rebuilding(hasher, residue, s), x, fuel - 1);
    }
  }

  // ---------- upsert and find ----------

  ghost predicate HoldsKey<K, V>(t: Table<K, V>, h: nat, k: K)
    requires h < |t|
  {
    t[h].Some? && t[h].value.0 == k
  }

  function Upserted<K(==), V>(hasher: K -> nat, residue: ((K, V)) -> (K, V), s: Tables<K, V>, k: K, v: V, fuel: nat)
    : Settled<K, V>
    requires s.Sized()
  {
    var h1, h2 := Hash1(hasher, s.size, k), Hash2(hasher, s.size, k);
    if s.t1[h1].Some? && s.t1[h1].value.0 == k then Settled(Done, s.(t1 := s.t1[h1 := Some((k, v))]))
    else if s.t2[h2].Some? && s.t2[h2].value.0 == k then Settled(Done, s.(t2 := s.t2[h2 := Some((k, v))]))
    else Inserted(hasher, residue, s, (k, v), fuel)
  }

  lemma UpsertedSized<K, V>(hasher: K -> nat, residue: ((K, V)) -> (K, V), s: Tables<K, V>, k: K, v: V, fuel: nat)
    requires s.Sized()
    ensures Upserted(hasher, residue, s, k, v, fuel).tables.Sized()
  {
    hide Placed, Retried;
    PlacedSized(hasher, residue, s, (k, v), fuel);
    RetriedSized(hasher, residue, s, (k, v), fuel + 1);
  }

  /** Replacing a value moves nothing. */
  ghost predicate UpsertedClean<K, V>(hasher: K -> nat, residue: ((K, V)) -> (K, V), s: Tables<K, V>, k: K, v: V,
                                      fuel: nat)
    requires s.Sized()
  {
    || HoldsKey(s.t1, Hash1(hasher, s.size, k), k) || HoldsKey(s.t2, Hash2(hasher, s.size, k), k)
    || InsertedClean(hasher, residue, s, (k, v), fuel)
  }

  /** A stored pair is a pair of the map. */
  lemma InPairs<K(!new), V(!new)>(s: Tables<K, V>, m: map<K, V>, t: Table<K, V>, h: nat)
    requires BagOf(m, s.Bag()) && (t == s.t1 || t == s.t2) && h < |t| && t[h].Some?
    ensures t[h].value.0 in m && m[t[h].value.0] == t[h].value.1
  {
    hide Items;
    ItemsIn(t, t[h].value);
    assert t[h].value in s.Bag();
  }

  lemma NotStored<K(!new), V(!new)>(hasher: K -> nat, s: Tables<K, V>, m: map<K, V>, k: K)
    requires Sound(hasher, s) && s.Sized() && BagOf(m, s.Bag())
    requires !HoldsKey(s.t1, Hash1(hasher, s.size, k), k) && !HoldsKey(s.t2, Hash2(hasher, s.size, k), k)
    ensures k !in m
  {
    hide Hash1, Hash2, Items;
    if k in m {
      assert (k, m[k]) in s.Bag();
      ItemsIn(s.t1, (k, m[k]));
      ItemsIn(s.t2, (k, m[k]));
    }
  }

  lemma Replaced1<K(!new), V(!new)>(hasher: K -> nat, s: Tables<K, V>, k: K, v: V, m: map<K, V>)
    requires Sound(hasher, s) && s.Sized() && HoldsKey(s.t1, Hash1(hasher, s.size, k), k)
    ensures var after := s.(t1 := s.t1[Hash1(hasher, s.size, k) := Some((k, v))]);
      Sound(hasher, after) && (BagOf(m, s.Bag()) ==> BagOf(m[k := v], after.Bag()))
  {
    hide Hash1, Items, BagOf;
    var h, all := Hash1(hasher, s.size, k), s.Bag() + multiset{(k, v)};
    Put1(hasher, s.t1, s.t2, s.size, (k, v), h, all, s.count);
    if BagOf(m, s.Bag()) {
      InPairs(s, m, s.t1, h);
      OldKey(m, s.Bag(), k, v, Pairs(s.t1[h := Some((k, v))], s.t2));
    }
  }

  lemma Replaced2<K(!new), V(!new)>(hasher: K -> nat, s: Tables<K, V>, k: K, v: V, m: map<K, V>)
    requires Sound(hasher, s) && s.Sized() && HoldsKey(s.t2, Hash2(hasher, s.size, k), k)
    ensures var after := s.(t2 := s.t2[Hash2(hasher, s.size, k) := Some((k, v))]);
      Sound(hasher, after) && (BagOf(m, s.Bag()) ==> BagOf(m[k := v], after.Bag()))
  {
    hide Hash2, Items, BagOf;
    var h, all := Hash2(hasher, s.size, k), s.Bag() + multiset{(k, v)};
    Put2(hasher, s.t1, s.t2, s.size, (k, v), h, all, s.count);
    if BagOf(m, s.Bag()) {
      InPairs(s, m, s.t2, h);
      OldKey(m, s.Bag(), k, v, Pairs(s.t1, s.t2[h := Some((k, v))]));
    }
  }

  lemma BagUnique<K(!new), V(!new)>(m: map<K, V>, a: multiset<(K, V)>, b: multiset<(K, V)>)
    requires BagOf(m, a) && BagOf(m, b)
    ensures a == b
  {
    assert forall p: (K, V) :: a[p] == b[p];
  }

  /** An upsert that returns is the update of a finite map if it is clean, and only then if what a move leaves stays
      when moved. */
  lemma UpsertedHolds<K(!new), V(!new)>(hasher: K -> nat, residue: ((K, V)) -> (K, V), s: Tables<K, V>, k: K, v: V,
                                        fuel: nat, m: map<K, V>)
    requires Sound(hasher, s)
    ensures s.Sized()
    ensures var r := Upserted(hasher, residue, s, k, v, fuel);
      r.outcome == Done ==>
        && Sound(hasher, r.tables)
        && (BagOf(m, s.Bag()) && UpsertedClean(hasher, residue, s, k, v, fuel) ==> BagOf(m[k := v], r.tables.Bag()))
        && (BagOf(m, s.Bag()) && Idempotent(residue) && BagOf(m[k := v], r.tables.Bag()) ==>
              UpsertedClean(hasher, residue, s, k, v, fuel))
  {
    SoundSized(hasher, s);
    hide Hash1, Hash2, BagOf, Inserted, InsertedClean, Sound, Tables.Bag, Idempotent;
    if HoldsKey(s.t1, Hash1(hasher, s.size, k), k) {
      Replaced1(hasher, s, k, v, m);
    } else if HoldsKey(s.t2, Hash2(hasher, s.size, k), k) {
      Replaced2(hasher, s, k, v, m);
    } else {
      InsertedHolds(hasher, residue, s, (k, v), fuel);
      var r := Inserted(hasher, residue, s, (k, v), fuel);
      if r.outcome == Done && BagOf(m, s.Bag()) {
        NotStored(hasher, s, m, k);
        NewKey(m, s.Bag(), k, v);
        if BagOf(m[k := v], r.tables.Bag()) { BagUnique(m[k := v], r.tables.Bag(), s.Bag() + multiset{(k, v)}); }
      }
    }
  }

  lemma LookupHolds<K(!new), V(!new)>(hasher: K -> nat, s: Tables<K, V>, k: K, m: map<K, V>)
    requires Sound(hasher, s) && BagOf(m, s.Bag())
    ensures s.Sized() && Lookup(hasher, s.t1, s.t2, k) == if k in m then Some(m[k]) else None
  {
    SoundSized(hasher, s);
    hide Hash1, Hash2, BagOf, Sound, Tables.Bag;
    var h1, h2 := Hash1(hasher, s.size, k), Hash2(hasher, s.size, k);
    if HoldsKey(s.t1, h1, k) {
      InPairs(s, m, s.t1, h1);
    } else if HoldsKey(s.t2, h2, k) {
      InPairs(s, m, s.t2, h2);
    } else {
      NotStored(hasher, s, m, k);
    }
  }
}
