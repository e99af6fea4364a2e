/** Build entries grouped by key: the storage array and the key index shared by the closed hash tables. */
module Grouping {
  import opened Bytes
  import opened Unchained

  /** One key with its stretch of the storage array. */
  datatype Info = Info(key: int, start: nat, count: nat)

  /** A build entry as stored: the row id is cut to 32 bits. */
  function Narrow(p: (i32, nat)): Entry { Entry(p.0, p.1 % 0x1_0000_0000) }

  function Narrowed(ps: seq<(i32, nat)>): (es: seq<Entry>)
    ensures |es| == |ps| && forall i | 0 <= i < |ps| :: es[i] == Narrow(ps[i])
  {
    seq(|ps|, i requires 0 <= i < |ps| => Narrow(ps[i]))
  }

  const FIRST_KEY: int := -0x8000_0000

  const KEY_END: int := 0x8000_0000

  /** The entries with key `k`, for any integer. */
  function With(es: seq<Entry>, k: int): seq<Entry> {
    if FIRST_KEY <= k < KEY_END then Matching(es, k) else []
  }

  /** The storage array: the entries of each key of a range together, keys ascending. */
  ghost function Grouped(k: int, end: int, es: seq<Entry>): seq<Entry>
    decreases end - k, |es|
  {
    if k >= end then [] else With(es, k) + Grouped(k + 1, end, es)
  }

  /** The index over that array when it begins at position `start`. */
  ghost function Infos(k: int, end: int, es: seq<Entry>, start: nat): seq<Info>
    decreases end - k, |es|
  {
    if k >= end then [] else
      var n := |With(es, k)|;
      (if n == 0 then [] else [Info(k, start, n)]) + Infos(k + 1, end, es, start + n)
  }

  ghost function Storage(es: seq<Entry>): seq<Entry> { Grouped(FIRST_KEY, KEY_END, es) }

  ghost function Index(es: seq<Entry>): seq<Info> { Infos(FIRST_KEY, KEY_END, es, 0) }

  /** The stretch of `storage` an index entry points at holds its key's entries. */
  ghost predicate Serves(storage: seq<Entry>, es: seq<Entry>, x: Info) {
    x.start + x.count <= |storage| && storage[x.start..x.start + x.count] == With(es, x.key)
  }

  /** An index entry covers its key's entries in input order. */
  lemma {:induction false} InfoServes(k: int, end: int, es: seq<Entry>, before: seq<Entry>, x: Info)
    requires x in Infos(k, end, es, |before|)
    ensures Serves(before + Grouped(k, end, es), es, x) && k <= x.key && x.count > 0
    decreases end - k
  {
    hide With;
    var mid := before + With(es, k);
    assert before + Grouped(k, end, es) == mid + Grouped(k + 1, end, es);
    var n := |With(es, k)|;
    if n > 0 && x == Info(k, |before|, n) {
      assert (mid + Grouped(k + 1, end, es))[|before|..|before| + n] == With(es, k);
    } else {
      assert x in Infos(k + 1, end, es, |mid|);
      InfoServes(k + 1, end, es, mid, x);
    }
  }

  /** A key of the range has an index entry exactly when it occurs. */
  lemma {:induction false} InfoOf(k: int, end: int, es: seq<Entry>, start: nat, key: int)
    requires k <= key < end
    ensures (exists x :: x in Infos(k, end, es, start) && x.key == key) <==> With(es, key) != []
    decreases end - k
  {
    hide With;
    var n := |With(es, k)|;
    var rest := Infos(k + 1, end, es, start + n);
    if k < key {
      InfoOf(k + 1, end, es, start + n, key);
      if x :| x in rest && x.key == key {
        assert x in Infos(k, end, es, start);
      }
    } else if n == 0 {
      assert Infos(k, end, es, start) == rest;
      KeysAscend(k + 1, end, es, start + n);
    } else {
      assert Infos(k, end, es, start)[0] == Info(k, start, n);
    }
  }

  lemma {:induction false} KeysAscend(k: int, end: int, es: seq<Entry>, start: nat)
    ensures forall x | x in Infos(k, end, es, start) :: k <= x.key
    decreases end - k
  {
    hide With;
    if k < end {
      KeysAscend(k + 1, end, es, start + |With(es, k)|);
    }
  }

  /** No key has two index entries. */
  lemma {:induction false} KeysDistinct(k: int, end: int, es: seq<Entry>, start: nat)
    ensures forall a, b | 0 <= a < b < |Infos(k, end, es, start)| ::
      Infos(k, end, es, start)[a].key < Infos(k, end, es, start)[b].key
    decreases end - k
  {
    hide With;
    if k < end {
      var n := |With(es, k)|;
      KeysDistinct(k + 1, end, es, start + n);
      KeysAscend(k + 1, end, es, start + n);
      var all, rest := Infos(k, end, es, start), Infos(k + 1, end, es, start + n);
      if n > 0 {
        assert all == [Info(k, start, n)] + rest;
        assert forall b | 0 < b < |all| :: all[b] == rest[b - 1] && all[b] in rest;
      }
    }
  }

  /** Keys that do not occur leave no trace. */
  lemma {:induction false} SkipKeys(k: int, m: int, end: int, es: seq<Entry>, start: nat)
    requires k <= m <= end
    requires forall j | k <= j < m :: With(es, j) == []
    ensures Grouped(k, end, es) == Grouped(m, end, es) && Infos(k, end, es, start) == Infos(m, end, es, start)
    decreases m - k
  {
    hide With;
    if k < m {
      assert With(es, k) == [];
      SkipKeys(k + 1, m, end, es, start);
    }
  }

  // ---------- looking a key up in the index ----------

  /** A table that holds the index. */
  ghost predicate Indexes(items: multiset<Info>, es: seq<Entry>) { items == multiset(Index(es)) }

  lemma FoundKey(items: multiset<Info>, es: seq<Entry>, x: Info)
    requires Indexes(items, es) && x in items
    ensures Serves(Storage(es), es, x) && x.count > 0
  {
    hide With, Infos, Grouped;
    assert x in Index(es);
    InfoServes(FIRST_KEY, KEY_END, es, [], x);
    assert [] + Storage(es) == Storage(es);
  }

  lemma {:induction false} MissingKey(items: multiset<Info>, es: seq<Entry>, k: i32)
    requires Indexes(items, es) && forall x | x in items :: x.key != k
    ensures Matching(es, k) == []
  {
    hide Infos, Matching;
    InfoOf(FIRST_KEY, KEY_END, es, 0, k);
    assert forall x :: x in Index(es) ==> x in items;
  }

  // ---------- building the index ----------

  /** Row ids collected for one key. */
  function RowsOf(k: i32, ids: seq<nat>): seq<Entry> {
    Narrowed(seq(|ids|, i requires 0 <= i < |ids| => (k, ids[i])))
  }

  ghost predicate GroupsOf(es: seq<Entry>, groups: map<i32, seq<nat>>) {
    forall k: i32 :: Matching(es, k) == if k in groups then RowsOf(k, groups[k]) else []
  }

  ghost predicate NoEmptyGroup(groups: map<i32, seq<nat>>) {
    forall k: i32 | k in groups :: groups[k] != []
  }

  lemma RowsOfSnoc(k: i32, ids: seq<nat>, row: nat)
    ensures RowsOf(k, ids + [row]) == RowsOf(k, ids) + [Narrow((k, row))] && RowsOf(k, []) == []
  {
  }

  lemma GroupStep(es: seq<Entry>, groups: map<i32, seq<nat>>, p: (i32, nat))
    requires GroupsOf(es, groups)
    ensures GroupsOf(es + [Narrow(p)], groups[p.0 := (if p.0 in groups then groups[p.0] else []) + [p.1]])
  {
    hide Matching, RowsOf;
    var more, ids := es + [Narrow(p)], if p.0 in groups then groups[p.0] else [];
    var after := groups[p.0 := ids + [p.1]];
    RowsOfSnoc(p.0, ids, p.1);
    forall k: i32 ensures Matching(more, k) == if k in after then RowsOf(k, after[k]) else [] {
      MatchingSnoc(es, Narrow(p), k);
    }
  }

  /** `grouped_entries[p.first].push_back(p.second)` */
  method GroupRows(ps: seq<(i32, nat)>) returns (groups: map<i32, seq<nat>>)
    ensures GroupsOf(Narrowed(ps), groups) && NoEmptyGroup(groups)
  {
    groups := map[];
    hide RowsOf, Matching;
    NothingGrouped();
    for i := 0 to |ps|
      invariant GroupsOf(Narrowed(ps[..i]), groups) && NoEmptyGroup(groups)
    {
      var (k, row) := ps[i];
      GroupStep(Narrowed(ps[..i]), groups, ps[i]);
      assert Narrowed(ps[..i + 1]) == Narrowed(ps[..i]) + [Narrow(ps[i])];
      hide GroupsOf;
      groups := groups[k := (if k in groups then groups[k] else []) + [row]];
    }
    assert ps[..|ps|] == ps;
  }

  lemma NothingGrouped()
    ensures GroupsOf(Narrowed([]), map[])
  {
  }

  /** Walking down from any key reaches the least one. */
  lemma LeastExists(keys: set<i32>, k: i32)
    requires k in keys
    ensures exists m :: m in keys && forall j | j in keys :: m <= j
    decreases k - FIRST_KEY
  {
    if j :| j in keys && j < k {
      LeastExists(keys, j);
    } else {
      assert forall j | j in keys :: k <= j;
    }
  }

  /** `begin()` of an ordered map. */
  method FirstKey(keys: set<i32>) returns (m: i32)
    requires keys != {}
    ensures m in keys && forall j | j in keys :: m <= j
  {
    ghost var k :| k in keys;
    LeastExists(keys, k);
    m :| m in keys && forall j | j in keys :: m <= j;
  }

  lemma KeyHere(k: int, end: int, es: seq<Entry>, start: nat, next: nat)
    requires k < end && With(es, k) != [] && next == start + |With(es, k)|
    ensures Infos(k, end, es, start) == [Info(k, start, |With(es, k)|)] + Infos(k + 1, end, es, next)
    ensures Grouped(k, end, es) == With(es, k) + Grouped(k + 1, end, es)
  {
    hide With;
  }

  lemma GroupAt(es: seq<Entry>, groups: map<i32, seq<nat>>, lo: int, k: i32)
    requires GroupsOf(es, groups) && NoEmptyGroup(groups)
    requires k in groups && forall j | j in groups :: j < lo || k <= j
    ensures With(es, k) == RowsOf(k, groups[k]) && |With(es, k)| == |groups[k]| > 0
    ensures forall j | lo <= j < k :: With(es, j) == []
  {
    hide Matching;
  }

  /** The next key of the ascending walk: what it adds to the index and to the storage array. */
  lemma NextKey(es: seq<Entry>, groups: map<i32, seq<nat>>, lo: int, k: i32, start: nat, next: nat)
    requires GroupsOf(es, groups) && NoEmptyGroup(groups)
    requires FIRST_KEY <= lo <= k && k in groups && forall j | j in groups :: j < lo || k <= j
    requires next == start + |groups[k]|
    ensures var above: int := k + 1;
      && Infos(lo, KEY_END, es, start) == [Info(k, start, |groups[k]|)] + Infos(above, KEY_END, es, next)
      && Grouped(lo, KEY_END, es) == RowsOf(k, groups[k]) + Grouped(above, KEY_END, es)
  {
    GroupAt(es, groups, lo, k);
    hide *;
    SkipKeys(lo, k, KEY_END, es, start);
    KeyHere(k, KEY_END, es, start, next);
  }

  lemma {:induction false} LastKey(es: seq<Entry>, groups: map<i32, seq<nat>>, lo: int, start: nat)
    requires GroupsOf(es, groups) && FIRST_KEY <= lo <= KEY_END && forall j | j in groups :: j < lo
    ensures Infos(lo, KEY_END, es, start) == [] && Grouped(lo, KEY_END, es) == []
  {
    hide Matching;
    SkipKeys(lo, KEY_END, KEY_END, es, start);
  }

  /** The walk between two keys: what is built and what is still to come make up the whole. */
  ghost predicate Walk(es: seq<Entry>, groups: map<i32, seq<nat>>, storage0: seq<Entry>, remaining: set<i32>, lo: int,
                       infos: seq<Info>, storage: seq<Entry>, next: nat) {
    && FIRST_KEY <= lo <= KEY_END
    && (forall j :: j in remaining <==> j in groups && lo <= j)
    && infos + Infos(lo, KEY_END, es, next) == Index(es)
    && storage + Grouped(lo, KEY_END, es) == storage0 + Storage(es)
  }

  lemma WalkStep(es: seq<Entry>, groups: map<i32, seq<nat>>, storage0: seq<Entry>, remaining: set<i32>, lo: int,
                 infos: seq<Info>, storage: seq<Entry>, next: nat, k: i32, ids: seq<nat>, after: nat)
    requires GroupsOf(es, groups) && NoEmptyGroup(groups)
    requires Walk(es, groups, storage0, remaining, lo, infos, storage, next)
    requires k in remaining && (forall j | j in remaining :: k <= j) && k in groups && ids == groups[k]
    requires after == next + |ids|
    ensures Walk(es, groups, storage0, remaining - {k}, k + 1,
                 infos + [Info(k, next, |ids|)], storage + RowsOf(k, ids), after)
  {
    hide Matching, GroupsOf, NoEmptyGroup, Infos, Grouped, RowsOf;
    var above: int := k + 1;
    NextKey(es, groups, lo, k, next, after);
    assert (infos + [Info(k, next, |ids|)]) + Infos(above, KEY_END, es, after) == infos + Infos(lo, KEY_END, es, next);
    assert (storage + RowsOf(k, ids)) + Grouped(above, KEY_END, es) == storage + Grouped(lo, KEY_END, es);
  }

  lemma WalkKey(es: seq<Entry>, groups: map<i32, seq<nat>>, storage0: seq<Entry>, remaining: set<i32>, lo: int,
                infos: seq<Info>, storage: seq<Entry>, next: nat, k: i32)
    requires Walk(es, groups, storage0, remaining, lo, infos, storage, next) && k in remaining
    ensures k in groups
  {
    hide Infos, Grouped;
  }

  lemma WalkStart(es: seq<Entry>, groups: map<i32, seq<nat>>, storage0: seq<Entry>)
    ensures Walk(es, groups, storage0, groups.Keys, FIRST_KEY, [], storage0, 0)
  {
    hide Infos, Grouped;
    assert [] + Index(es) == Index(es);
  }

  /** The shared preprocessing: keys ascending, row ids appended to the storage array, start indices counted from 0. */
  method BuildIndex(ps: seq<(i32, nat)>, storage0: seq<Entry>) returns (infos: seq<Info>, storage: seq<Entry>)
    ensures infos == Index(Narrowed(ps)) && storage == storage0 + Storage(Narrowed(ps))
  {
    ghost var es := Narrowed(ps);
    var groups := GroupRows(ps);
    var remaining := groups.Keys;
    var next: nat := 0;
    ghost var lo: int := FIRST_KEY;
    infos, storage := [], storage0;
    hide *;
    WalkStart(es, groups, storage0);
    while remaining != {}
      invariant Walk(es, groups, storage0, remaining, lo, infos, storage, next)
      decreases |remaining|
    {
      var k: int := FirstKey(remaining);
      assert k in groups by { WalkKey(es, groups, storage0, remaining, lo, infos, storage, next, k); }
      var ids := groups[k];
      var after := next + |ids|;
      WalkStep(es, groups, storage0, remaining, lo, infos, storage, next, k, ids, after);
      infos, storage, next, lo, remaining :=
        infos + [Info(k, next, |ids|)], storage + RowsOf(k, ids), after, k + 1, remaining - {k};
    }
    WalkEnd(es, groups, storage0, lo, infos, storage, next);
  }

  lemma WalkEnd(es: seq<Entry>, groups: map<i32, seq<nat>>, storage0: seq<Entry>, lo: int,
                infos: seq<Info>, storage: seq<Entry>, next: nat)
    requires GroupsOf(es, groups) && Walk(es, groups, storage0, {}, lo, infos, storage, next)
    ensures infos == Index(es) && storage == storage0 + Storage(es)
  {
    hide Matching, GroupsOf, Infos, Grouped;
    assert forall j | j in groups :: j < lo;
    LastKey(es, groups, lo, next);
  }

  // ---------- rebuilding without clearing the storage array ----------

  ghost predicate Answers(storage: seq<Entry>, es: seq<Entry>) {
    forall x | x in Index(es) :: Serves(storage, es, x)
  }

  lemma KeyAbsent(k: int, end: int, es: seq<Entry>, start: nat)
    requires k < end && With(es, k) == []
    ensures Infos(k, end, es, start) == Infos(k + 1, end, es, start) && Grouped(k, end, es) == Grouped(k + 1, end, es)
  {
    hide With;
  }

  lemma ServedHere(storage: seq<Entry>, es: seq<Entry>, k: int, start: nat, next: nat)
    requires Serves(storage, es, Info(k, start, |With(es, k)|)) && next == start + |With(es, k)|
    ensures next <= |storage| && storage[start..next] == With(es, k)
  {
    hide With;
  }

  lemma Joint(storage: seq<Entry>, start: nat, next: nat, end: nat)
    requires start <= next <= end <= |storage|
    ensures storage[start..end] == storage[start..next] + storage[next..end]
  {
  }

  lemma {:induction false} CoveredPrefix(k: int, end: int, es: seq<Entry>, start: nat, storage: seq<Entry>, stop: nat)
    requires stop == start + |Grouped(k, end, es)| && stop <= |storage|
    requires forall x | x in Infos(k, end, es, start) :: Serves(storage, es, x)
    ensures storage[start..stop] == Grouped(k, end, es)
    decreases end - k
  {
    if k < end {
      hide *;
      var next := start + |With(es, k)|;
      if With(es, k) == [] {
        KeyAbsent(k, end, es, start);
        CoveredPrefix(k + 1, end, es, start, storage, stop);
      } else {
        KeyHere(k, end, es, start, next);
        assert Info(k, start, |With(es, k)|) in Infos(k, end, es, start);
        ServedHere(storage, es, k, start, next);
        CoveredPrefix(k + 1, end, es, next, storage, stop);
        Joint(storage, start, next, stop);
      }
    }
  }

  lemma ServesPrefix(storage: seq<Entry>, more: seq<Entry>, es: seq<Entry>, x: Info)
    requires Serves(storage, es, x) && storage <= more
    ensures Serves(more, es, x)
  {
    hide With;
    assert more[x.start..x.start + x.count] == storage[x.start..x.start + x.count];
  }

  /** What a probe's answer points at: exactly the key's entries in input order, if the index's storage was laid
      down first. */
  lemma {:induction false} ProbeSlice(storage: seq<Entry>, es: seq<Entry>, k: i32, begin: nat, count: nat)
    requires Storage(es) <= storage
    requires count == |Matching(es, k)| && if count > 0 then Info(k, begin, count) in Index(es) else begin == 0
    ensures begin + count <= |storage| && storage[begin..begin + count] == Matching(es, k)
  {
    hide Matching, Infos, Grouped;
    if count > 0 {
      FoundKey(multiset(Index(es)), es, Info(k, begin, count));
      ServesPrefix(Storage(es), storage, es, Info(k, begin, count));
    }
  }

  /** `rows` are the entries of key `k`: `places` are its places in the input, in order, and no row id is changed that
      fits 32 bits. */
  ghost predicate KeyRows(ps: seq<(i32, nat)>, k: i32, rows: seq<Entry>, places: seq<nat>) {
    && |rows| == |places|
    && (forall n | 0 <= n < |places| :: places[n] < |ps| && ps[places[n]].0 == k)
    && (forall n | 0 <= n < |places| ::
          rows[n].key == k && (ps[places[n]].1 < 0x1_0000_0000 ==> rows[n].row == ps[places[n]].1))
    && (forall m, n | 0 <= m < n < |places| :: places[m] < places[n])
    && (forall i | 0 <= i < |ps| && ps[i].0 == k :: i in places)
  }

  lemma KeyRowsSnoc(ps: seq<(i32, nat)>, k: i32, rows: seq<Entry>, places: seq<nat>, p: (i32, nat), e: Entry)
    requires KeyRows(ps, k, rows, places) && e.key == p.0 && (p.1 < 0x1_0000_0000 ==> e.row == p.1)
    ensures p.0 == k ==> KeyRows(ps + [p], k, rows + [e], places + [|ps|])
    ensures p.0 != k ==> KeyRows(ps + [p], k, rows, places)
  {
    var more := ps + [p];
    assert forall i | 0 <= i < |ps| :: more[i] == ps[i];
    assert more[|ps|] == p;
    if p.0 == k {
      var places' := places + [|ps|];
      assert forall i | i in places :: i in places';
      assert |ps| in places';
    }
  }

  lemma {:induction false} NoKeyRows(k: i32)
    ensures KeyRows([], k, Matching(Narrowed([]), k), [])
  {
  }

  /** A row id that fits 32 bits is kept. */
  lemma NarrowKeeps(p: (i32, nat))
    ensures Narrow(p).key == p.0 && (p.1 < 0x1_0000_0000 ==> Narrow(p).row == p.1)
  {
  }

  lemma NarrowedSnoc(ps: seq<(i32, nat)>, p: (i32, nat))
    ensures Narrowed(ps + [p]) == Narrowed(ps) + [Narrow(p)]
  {
    hide Narrow;
  }

  /** The entries with a key are its rows of the input. */
  lemma {:induction false} MatchingRows(ps: seq<(i32, nat)>, k: i32)
    ensures exists places :: KeyRows(ps, k, Matching(Narrowed(ps), k), places)
  {
    hide *;
    if ps == [] {
      NoKeyRows(k);
    } else {
      var n := |ps| - 1;
      var p, before := ps[n], ps[..n];
      var es, e := Narrowed(before), Narrow(p);
      MatchingRows(before, k);
      var rows := Matching(es, k);
      var places :| KeyRows(before, k, rows, places);
      assert ps == before + [p];
      NarrowedSnoc(before, p);
      NarrowKeeps(p);
      MatchingSnoc(es, e, k);
      KeyRowsSnoc(before, k, rows, places, p, e);
      assert p.0 == k ==> KeyRows(ps, k, rows + [e], places + [n]);
    }
  }

  lemma {:induction false} EmptyStorage(k: int)
    ensures Grouped(k, KEY_END, []) == []
    decreases KEY_END - k
  {
    if k < KEY_END { EmptyStorage(k + 1); }
  }

  lemma StoredFirst(ps: seq<(i32, nat)>, storage: seq<Entry>)
    requires ps == [] || storage == Storage(Narrowed(ps)) || storage == [] + Storage(Narrowed(ps))
    ensures Storage(Narrowed(ps)) <= storage
  {
    if ps == [] { EmptyStorage(FIRST_KEY); }
  }

  /** A rebuild on a used object answers every key exactly when the new storage is a prefix of what is now stored. */
  lemma RebuildExact(before: seq<Entry>, es: seq<Entry>)
    ensures Answers(before + Storage(es), es) <==> Storage(es) <= before + Storage(es)
  {
    hide With, Infos, Grouped;
    var storage, flat := before + Storage(es), Storage(es);
    if flat <= storage {
      forall x | x in Index(es) ensures Serves(storage, es, x) {
        FoundKey(multiset(Index(es)), es, x);
        ServesPrefix(flat, storage, es, x);
      }
    }
    if Answers(storage, es) {
      CoveredPrefix(FIRST_KEY, KEY_END, es, 0, storage, |flat|);
      assert storage[0..|flat|] == storage[..|flat|];
    }
  }

  /** Building for one key on an object built for another leaves the second with the first one's entry. */
  lemma RebuildFails(first: Entry, second: Entry)
    requires first.key != second.key
    ensures Index([second]) == [Info(second.key, 0, 1)]
    ensures var storage := Storage([first]) + Storage([second]);
      |storage| == 2 && storage[0..1] == [first] && !Answers(storage, [second])
  {
    hide Grouped, Infos, Answers;
    OneStored(first);
    OneStored(second);
    RebuildExact(Storage([first]), [second]);
    assert ([first] + [second])[0] == first;
  }

  lemma OneStored(e: Entry)
    ensures Storage([e]) == [e] && Index([e]) == [Info(e.key, 0, 1)]
  {
    forall k: i32 ensures Matching([e], k) == if e.key == k then [e] else [] {
      OneMatching(e, k);
    }
    var k: int := e.key;
    hide Matching, Grouped, Infos;
    SkipKeys(FIRST_KEY, k, KEY_END, [e], 0);
    KeyHere(k, KEY_END, [e], 0, 1);
    SkipKeys(k + 1, KEY_END, KEY_END, [e], 0);
    SkipKeys(k + 1, KEY_END, KEY_END, [e], 1);
    NoKeysLeft([e], 1);
  }

  lemma {:induction false} NoKeysLeft(es: seq<Entry>, start: nat)
    ensures Grouped(KEY_END, KEY_END, es) == [] && Infos(KEY_END, KEY_END, es, start) == []
  {
  }

  lemma {:induction false} OneMatching(e: Entry, k: i32)
    ensures Matching([e], k) == if e.key == k then [e] else []
  {
    assert [] + [e] == [e] && Matching([], k) == [];
    MatchingSnoc([], e, k);
  }
}
