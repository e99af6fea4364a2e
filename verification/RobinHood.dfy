/** Robin Hood hashing: the ordering by probe length that lets a lookup stop early. */
module RobinHood {
  import opened Bytes
  import opened Circular
  import opened Slots
  import opened Unchained
  import opened Grouping

  type Table = seq<Option<Info>>

  function Home(mix: int -> nat, cap: nat, key: int): nat { if cap == 0 then 0 else mix(key) % cap }

  // ---------- the invariant ----------

  function PslAt(mix: int -> nat, t: Table, i: nat): nat
    requires i < |t| && t[i].Some?
  {
    Steps(|t|, i, Home(mix, |t|, t[i].value.key))
  }

  /** A key away from home may sit at `n` only behind an entry that is at most one step closer to its own home. */
  ghost predicate Fits(mix: int -> nat, t: Table, n: nat, key: int)
    requires n < |t|
  {
    var d := Steps(|t|, n, Home(mix, |t|, key));
    d > 0 ==> t[Behind(|t|, n)].Some? && d <= PslAt(mix, t, Behind(|t|, n)) + 1
  }

  ghost predicate Ordered(mix: int -> nat, t: Table) {
    forall n | 0 <= n < |t| && t[n].Some? :: Fits(mix, t, n, t[n].value.key)
  }

  /** One step back along a probe path. */
  lemma StepBack(mix: int -> nat, t: Table, home: nat, j: nat, next: nat)
    requires Ordered(mix, t) && home < |t| && next == j + 1 < |t|
    requires var n := Path(|t|, home, next); n < |t| && t[n].Some? && PslAt(mix, t, n) >= next
    ensures var i := Path(|t|, home, j); i < |t| && t[i].Some? && PslAt(mix, t, i) >= j
  {
    hide Steps, Home;
    PathAhead(|t|, home, j);
    var n := Path(|t|, home, j + 1);
    assert Fits(mix, t, n, t[n].value.key);
  }

  /** Every slot between a stored key's home and its place is taken by an entry at least as far from its own home. */
  lemma {:induction false} PathTaken(mix: int -> nat, t: Table, s: nat, d: nat, j: nat)
    requires Ordered(mix, t) && s < |t| && t[s].Some? && j <= d == PslAt(mix, t, s) < |t|
    requires Home(mix, |t|, t[s].value.key) < |t|
    ensures var i := Path(|t|, Home(mix, |t|, t[s].value.key), j); i < |t| && t[i].Some? && PslAt(mix, t, i) >= j
    decreases d - j
  {
    var home := Home(mix, |t|, t[s].value.key);
    PathBack(|t|, s, home);
    hide *;
    if j < d {
      var next := j + 1;
      PathTaken(mix, t, s, d, next);
      StepBack(mix, t, home, j, next);
    } else {
      PathEnd(mix, t, s, d);
    }
  }

  lemma PathEnd(mix: int -> nat, t: Table, s: nat, d: nat)
    requires s < |t| && t[s].Some? && d == PslAt(mix, t, s) < |t|
    ensures Path(|t|, Home(mix, |t|, t[s].value.key), d) == s
  {
    PathBack(|t|, s, Home(mix, |t|, t[s].value.key));
  }

  lemma PlaceKeeps(mix: int -> nat, t: Table, cur: nat, x: Info)
    requires Ordered(mix, t) && cur < |t| && t[cur].None? && Fits(mix, t, cur, x.key)
    ensures Ordered(mix, t[cur := Some(x)])
  {
    var t' := t[cur := Some(x)];
    forall n | 0 <= n < |t| && t'[n].Some? ensures Fits(mix, t', n, t'[n].value.key) {
      if n != cur {
        assert Fits(mix, t, n, t[n].value.key);
      }
    }
  }

  /** Taking a slot from an entry closer to its home keeps the order, and the evicted entry fits one slot further. */
  lemma SwapKeeps(mix: int -> nat, t: Table, cur: nat, x: Info)
    requires Ordered(mix, t) && cur < |t| && t[cur].Some? && Fits(mix, t, cur, x.key)
    requires Steps(|t|, cur, Home(mix, |t|, x.key)) > PslAt(mix, t, cur)
    ensures var t' := t[cur := Some(x)];
      Ordered(mix, t') && Fits(mix, t', Ahead(|t|, cur), t[cur].value.key)
  {
    var t' := t[cur := Some(x)];
    AheadBehind(|t|, cur);
    forall n | 0 <= n < |t| && t'[n].Some? ensures Fits(mix, t', n, t'[n].value.key) {
      if n != cur {
        assert Fits(mix, t, n, t[n].value.key);
      }
    }
  }

  lemma PassKeeps(mix: int -> nat, t: Table, cur: nat, x: Info)
    requires cur < |t| && t[cur].Some?
    requires Steps(|t|, cur, Home(mix, |t|, x.key)) <= PslAt(mix, t, cur)
    ensures Fits(mix, t, Ahead(|t|, cur), x.key)
  {
    AheadBehind(|t|, cur);
  }

  lemma SwapItems(t: Table, cur: nat, x: Info, all: multiset<Info>)
    requires cur < |t| && t[cur].Some? && Items(t) + multiset{x} == all
    ensures Items(t[cur := Some(x)]) + multiset{t[cur].value} == all
  {
    ItemsUpdate(t, cur, Some(x));
  }

  lemma PlaceItems(t: Table, cur: nat, x: Info)
    requires cur < |t| && t[cur].None?
    ensures Items(t[cur := Some(x)]) == Items(t) + multiset{x}
  {
    ItemsUpdate(t, cur, Some(x));
    assert Items(t[cur := Some(x)]) + multiset{} == Items(t[cur := Some(x)]);
  }

  /** Circling once over taken slots means the table is full. */
  lemma WholeCircle(t: Table, home: nat)
    requires home < |t| && forall j | 0 <= j < |t| :: t[Path(|t|, home, j)].Some?
    ensures Full(t)
  {
    forall i | 0 <= i < |t| ensures t[i].Some? {
      PathBack(|t|, i, home);
      assert t[Path(|t|, home, Steps(|t|, i, home))].Some?;
    }
  }

  /** The insertion loop carries `x` to slot `cur`; slots and carried entry together are `all`. */
  ghost predicate Carrying(mix: int -> nat, before: Table, all: multiset<Info>, home: nat, attempts: nat,
                           t: Table, cur: nat, x: Info) {
    && |t| == |before| && home < |t| && attempts <= |t| && cur == Path(|t|, home, attempts)
    && cur < |t| && Ordered(mix, t) && Fits(mix, t, cur, x.key)
    && Items(t) + multiset{x} == all
    && Visited(before, home, attempts, t)
  }

  /** The same slots are taken as before, among them the first `attempts` on the path. */
  ghost predicate Visited(before: Table, home: nat, attempts: nat, t: Table)
    requires |t| == |before| && home < |t| && attempts <= |t|
  {
    && (forall i | 0 <= i < |t| :: t[i].Some? <==> before[i].Some?)
    && forall j | 0 <= j < attempts :: t[Path(|t|, home, j)].Some?
  }

  lemma VisitMore(before: Table, home: nat, attempts: nat, t: Table, x: Info, next: nat)
    requires |t| == |before| && home < |t| && attempts < |t|
    requires Visited(before, home, attempts, t) && next == attempts + 1
    requires Path(|t|, home, attempts) < |t| && t[Path(|t|, home, attempts)].Some?
    ensures Visited(before, home, next, t) && Visited(before, home, next, t[Path(|t|, home, attempts) := Some(x)])
  {
  }

  lemma {:induction false} CarryStart(mix: int -> nat, t: Table, x: Info)
    requires t != [] && Ordered(mix, t)
    ensures Carrying(mix, t, Items(t) + multiset{x}, Home(mix, |t|, x.key), 0, t, Home(mix, |t|, x.key), x)
  {
  }

  lemma CarrySwap(mix: int -> nat, before: Table, all: multiset<Info>, home: nat, attempts: nat, t: Table, cur: nat,
                  x: Info,
                  next: nat)
    requires Carrying(mix, before, all, home, attempts, t, cur, x)
    requires t[cur].Some? && attempts < |t| && next == attempts + 1
    requires Steps(|t|, cur, Home(mix, |t|, x.key)) > PslAt(mix, t, cur)
    ensures Carrying(mix, before, all, home, next, t[cur := Some(x)], Ahead(|t|, cur), t[cur].value)
  {
    hide Fits, Ordered, Steps, Home, Path, Ahead, Items, Visited;
    VisitMore(before, home, attempts, t, x, next);
    PathAhead(|t|, home, attempts);
    SwapKeeps(mix, t, cur, x);
    SwapItems(t, cur, x, all);
    AheadBehind(|t|, cur);
  }

  lemma CarryPass(mix: int -> nat, before: Table, all: multiset<Info>, home: nat, attempts: nat, t: Table, cur: nat,
                  x: Info,
                  next: nat)
    requires Carrying(mix, before, all, home, attempts, t, cur, x)
    requires t[cur].Some? && attempts < |t| && next == attempts + 1
    requires Steps(|t|, cur, Home(mix, |t|, x.key)) <= PslAt(mix, t, cur)
    ensures Carrying(mix, before, all, home, next, t, Ahead(|t|, cur), x)
  {
    hide Fits, Ordered, Steps, Home, Path, Ahead, Items, Visited;
    VisitMore(before, home, attempts, t, x, next);
    PathAhead(|t|, home, attempts);
    PassKeeps(mix, t, cur, x);
    AheadBehind(|t|, cur);
  }

  lemma CarryEnd(mix: int -> nat, before: Table, all: multiset<Info>, home: nat, attempts: nat, t: Table, cur: nat,
                 x: Info)
    requires Carrying(mix, before, all, home, attempts, t, cur, x)
    ensures t[cur].None? ==> !Full(before) && Ordered(mix, t[cur := Some(x)]) && Items(t[cur := Some(x)]) == all
    ensures attempts == |t| ==> Full(before)
  {
    hide Fits, Ordered, Steps;
    if t[cur].None? {
      PlaceKeeps(mix, t, cur, x);
      PlaceItems(t, cur, x);
    }
    if attempts == |t| {
      WholeCircle(t, home);
    }
  }

  class RobinHoodBackend {
    const mix: int -> nat
    var storage: seq<Entry>
    var table: Table
    var capacity: nat

    /** The table is in order and holds the index of `es`. */
    ghost predicate Holds(es: seq<Entry>)
      reads this`table, this`capacity
    {
      if capacity == 0 then es == []
      else |table| == capacity && Ordered(mix, table) && Indexes(Items(table), es)
    }

    constructor (mix: int -> nat)
      ensures this.mix == mix && storage == [] && Holds([])
    {
      this.mix := mix;
      storage, table, capacity := [], [], 0;
    }

    /** Insertion with displacement; it fails exactly when every slot is taken. */
    method InsertIndexInfo(info: Info) returns (ok: bool)
      requires |table| == capacity > 0 && Ordered(mix, table)
      modifies this`table
      ensures |table| == capacity && (ok <==> !Full(old(table)))
      ensures ok ==> Ordered(mix, table) && Items(table) == old(Items(table)) + multiset{info}
    {
      var home := Home(mix, capacity, info.key);
      var cur: nat, x, attempts := home, info, 0;
      ghost var before, all := table, Items(table) + multiset{info};
      CarryStart(mix, table, info);
      HomeInRange(mix, capacity, info.key);
      hide *;
      while table[cur].Some?
        invariant |table| == capacity && attempts <= capacity && cur < capacity && home < capacity
        invariant Carrying(mix, before, all, home, attempts, table, cur, x)
        decreases capacity - attempts
      {
        if attempts >= capacity {
          CarryEnd(mix, before, all, home, attempts, table, cur, x);
          return false;
        }
        HomeInRange(mix, capacity, x.key);
        HomeInRange(mix, capacity, table[cur].value.key);
        var insertPsl := Steps(capacity, cur, Home(mix, capacity, x.key));
        var displacedPsl := PslAt(mix, table, cur);
        var next, after := attempts + 1, Ahead(capacity, cur);
        AheadInRange(capacity, cur);
        if insertPsl > displacedPsl {
          CarrySwap(mix, before, all, home, attempts, table, cur, x, next);
          var evicted := table[cur].value;
          table := table[cur := Some(x)];
          x := evicted;
        } else {
          CarryPass(mix, before, all, home, attempts, table, cur, x, next);
        }
        cur, attempts := after, next;
      }
      CarryEnd(mix, before, all, home, attempts, table, cur, x);
      table := table[cur := Some(x)];
      ok := true;
    }

    /** Groups the entries and inserts every key; the retries and the throw are never reached. */
    method BuildFromEntries(ps: seq<(i32, nat)>) returns (ok: bool)
      modifies this
      ensures ok && Holds(Narrowed(ps))
      ensures storage == if ps == [] then [] else old(storage) + Storage(Narrowed(ps))
    {
      hide *;
      if ps == [] {
        storage, table, capacity := [], [], 0;
        EmptyHolds();
        return true;
      }
      var infos;
      infos, storage := BuildIndex(ps, storage);
      IndexNotEmpty(Narrowed(ps));
      ok := Place(infos);
      BuiltHolds(infos, Narrowed(ps));
    }

    lemma EmptyHolds()
      requires capacity == 0
      ensures Holds(Narrowed([]))
    {
    }

    /** The insertion loop with its five attempts. */
    method Place(infos: seq<Info>) returns (ok: bool)
      requires infos != []
      modifies this`table, this`capacity
      ensures ok && |table| == capacity > 0 && Ordered(mix, table) && Items(table) == multiset(infos)
    {
      hide *;
      RoomForAll(|infos|);
      capacity := InitialCapacity(|infos|);
      var attempt := 0;
      ok := false;
      while !ok && attempt < 5
        invariant !ok ==> attempt == 0 && NextCapacity(attempt, capacity) == capacity > |infos|
        invariant ok ==> |table| == capacity > 0 && Ordered(mix, table) && Items(table) == multiset(infos)
        decreases 5 - attempt, !ok
      {
        capacity := NextCapacity(attempt, capacity);
        table := Vacant(capacity);
        ok := InsertAll(infos);
        if !ok {
          attempt := attempt + 1;
        }
      }
    }

    method InsertAll(infos: seq<Info>) returns (ok: bool)
      requires capacity > |infos| && table == Vacant(capacity)
      modifies this`table
      ensures ok && |table| == capacity && Ordered(mix, table) && Items(table) == multiset(infos)
    {
      NoItems<Info>(capacity);
      assert Ordered(mix, table);
      hide *;
      ok := true;
      for i := 0 to |infos|
        invariant ok && |table| == capacity && Ordered(mix, table) && Items(table) == multiset(infos[..i])
      {
        ItemsCount(table);
        assert infos[..i + 1] == infos[..i] + [infos[i]];
        NotFull(table);
        ok := InsertIndexInfo(infos[i]);
        if !ok { break; }
      }
      assert infos[..|infos|] == infos;
    }

    lemma BuiltHolds(infos: seq<Info>, es: seq<Entry>)
      requires |table| == capacity > 0 && Ordered(mix, table) && Items(table) == multiset(infos) && infos == Index(es)
      ensures Holds(es)
    {
      hide Ordered, Items;
    }

    /** The early exit never misses a key: a count of 0 means there is no such key, and otherwise the index entry
        is exact. */
    method Probe(k: i32, ghost es: seq<Entry>) returns (begin: nat, count: nat)
      requires Holds(es)
      ensures count == |Matching(es, k)|
      ensures if count > 0 then Info(k, begin, count) in Index(es) else begin == 0
    {
      if capacity == 0 {
        return 0, 0;
      }
      var home := Home(mix, capacity, k);
      HomeInRange(mix, capacity, k);
      assert |table| == capacity;
      ProbeStart(table, home, k);
      hide *;
      var cur: nat := home;
      ghost var steps: nat := 0;
      while true
        invariant steps < capacity && cur < capacity && home < capacity == |table|
        invariant Missed(table, home, steps, cur, k)
        decreases capacity - steps
      {
        if table[cur].None? {
          Absent(es, k, home, steps, cur);
          return 0, 0;
        }
        HomeInRange(mix, capacity, table[cur].value.key);
        var kPsl := Steps(capacity, cur, home);
        var displacedPsl := Steps(capacity, cur, Home(mix, capacity, table[cur].value.key));
        if kPsl > displacedPsl {
          Absent(es, k, home, steps, cur);
          return 0, 0;
        }
        if table[cur].value.key == k {
          Present(es, cur, k);
          return table[cur].value.start, table[cur].value.count;
        }
        ghost var next := steps + 1;
        MissedOne(table, home, steps, cur, k, next);
        cur := (cur + 1) % capacity;
        if cur == home {
          Absent(es, k, home, next, cur);
          return 0, 0;
        }
        steps := next;
      }
    }

    /** Past `steps` unsuccessful slots, an empty slot, a richer entry or a full circle rules the key out. */
    lemma {:induction false} Absent(es: seq<Entry>, k: i32, home: nat, steps: nat, cur: nat)
      requires Holds(es) && |table| == capacity > 0 && home == Home(mix, capacity, k) < capacity && cur < capacity
      requires steps <= capacity && Missed(table, home, steps, cur, k)
      requires steps == capacity || table[cur].None? || PslAt(mix, table, cur) < Steps(capacity, cur, home)
      ensures Matching(es, k) == []
    {
      hide Matching, Ordered, Items, Index, Path, Home, NotAt;
      if steps < capacity { PathAhead(capacity, home, steps); }
      forall x | x in Items(table) ensures x.key != k {
        ItemsIn(table, x);
        var s :| 0 <= s < capacity && table[s] == Some(x);
        KeyNotHere(k, home, steps, cur, s);
      }
      MissingKey(Items(table), es, k);
    }

    lemma KeyNotHere(k: i32, home: nat, steps: nat, cur: nat, s: nat)
      requires |table| == capacity > 0 && Ordered(mix, table)
      requires home == Home(mix, capacity, k) < capacity && cur < capacity
      requires steps <= capacity && Missed(table, home, steps, cur, k)
      requires steps == capacity || table[cur].None? || PslAt(mix, table, cur) < steps
      requires s < capacity && table[s].Some?
      ensures table[s].value.key != k
    {
      hide Ordered, Home, Path;
      PathBack(capacity, s, home);
      var d := Steps(capacity, s, home);
      HomeInRange(mix, capacity, k);
      if d < steps {
        assert NotAt(table, capacity, home, d, k);
      } else if table[s].value.key == k {
        PathTaken(mix, table, s, d, steps);
      }
    }

    lemma {:induction false} Present(es: seq<Entry>, cur: nat, k: i32)
      requires Holds(es) && cur < |table| == capacity && table[cur].Some? && table[cur].value.key == k
      ensures var x := table[cur].value; x in Index(es) && x.count == |Matching(es, k)| > 0
    {
      hide Matching, Ordered, Items, Index;
      ItemsIn(table, table[cur].value);
      FoundKey(Items(table), es, table[cur].value);
    }
  }

  ghost predicate NotAt(t: Table, cap: nat, home: nat, j: nat, k: int)
    requires home < cap && j <= cap
  {
    var i := Path(cap, home, j);
    i < |t| && t[i].Some? && t[i].value.key != k
  }

  /** The first `steps` slots from home hold other keys, and `cur` is the next one. */
  ghost predicate Missed(t: Table, home: nat, steps: nat, cur: nat, k: int)
    requires home < |t| && steps <= |t|
  {
    cur == Path(|t|, home, steps) && forall j | 0 <= j < steps :: NotAt(t, |t|, home, j, k)
  }

  lemma ProbeStart(t: Table, home: nat, k: int)
    requires home < |t|
    ensures Missed(t, home, 0, home, k)
  {
  }

  lemma MissedOne(t: Table, home: nat, steps: nat, cur: nat, k: int, next: nat)
    requires home < |t| && steps < |t| && next == steps + 1 && Missed(t, home, steps, cur, k)
    requires cur < |t| && t[cur].Some? && t[cur].value.key != k
    ensures var after := (cur + 1) % |t|;
      after < |t| && Missed(t, home, next, after, k) && (after == home <==> next == |t|)
  {
    AheadBehind(|t|, cur);
  }

  /** `ceil(n / 0.75)`, at least 1. */
  function InitialCapacity(n: nat): nat {
    var c := (4 * n + 2) / 3;
    if c == 0 then 1 else c
  }

  /** Retries grow the table. */
  function NextCapacity(attempt: nat, capacity: nat): nat { if attempt > 0 then capacity * 2 + 1 else capacity }

  lemma RoomForAll(n: nat)
    requires n > 0
    ensures InitialCapacity(n) > n && NextCapacity(0, InitialCapacity(n)) == InitialCapacity(n)
  {
  }

  lemma {:induction false} NotFull(t: Table)
    requires |Items(t)| < |t|
    ensures !Full(t)
  {
    ItemsCount(t);
  }

  lemma IndexNotEmpty(es: seq<Entry>)
    requires es != []
    ensures Index(es) != []
  {
    hide Matching, Infos;
    var e := es[|es| - 1];
    assert es == es[..|es| - 1] + [e];
    MatchingSnoc(es[..|es| - 1], e, e.key);
    InfoOf(FIRST_KEY, KEY_END, es, 0, e.key);
  }

  lemma AheadInRange(cap: nat, slot: nat)
    requires slot < cap
    ensures Ahead(cap, slot) < cap
  {
  }

  lemma HomeInRange(mix: int -> nat, cap: nat, key: int)
    requires cap > 0
    ensures Home(mix, cap, key) < cap
  {
  }

  /** Built on a fresh object, a probe answers any key with exactly its row ids, in input order. */
  method BuildAndProbe(mix: int -> nat, ps: seq<(i32, nat)>, k: i32) returns (rows: seq<Entry>)
    ensures rows == Matching(Narrowed(ps), k)
    ensures exists places :: KeyRows(ps, k, rows, places)
  {
    hide *;
    var table := new RobinHoodBackend(mix);
    var _ := table.BuildFromEntries(ps);
    var begin, count := table.Probe(k, Narrowed(ps));
    StoredFirst(ps, table.storage);
    ProbeSlice(table.storage, Narrowed(ps), k, begin, count);
    rows := table.storage[begin..begin + count];
    MatchingRows(ps, k);
  }
}
