/** Hopscotch hashing: each home slot's bitmap names the neighbours that hold its keys. */
module Hopscotch {
  import opened Bytes
  import opened Bags
  import opened Circular
  import opened Slots
  import opened Unchained
  import opened Grouping

  /** A composite key with its stretch of the storage array. */
  datatype HopSlot = HopSlot(ckey: u64, start: nat, count: nat)

  type Table = seq<Option<HopSlot>>

  // ---------- composite keys ----------

  /** `(tid << 48) | (uint64_t)k`: sign extension of a negative key covers the type id. */
  function MakeCkey(tid: u16, k: i32): u64 {
    if k < 0 then k + 0x1_0000_0000_0000_0000 else 0x1_0000_0000_0000 * tid + k
  }

  lemma CkeyInjective(tid: u16, a: i32, b: i32)
    ensures MakeCkey(tid, a) == MakeCkey(tid, b) <==> a == b
  {
  }

  // ---------- the invariant ----------

  function HomeOf(cap: nat, ckey: nat): (h: nat)
    requires cap > 0
    ensures h < cap
  {
    ckey % cap
  }

  /** The slot `off` after `h` holds a key whose home is `h`. */
  predicate Belongs(t: Table, h: nat, off: nat)
    requires h < |t| && off < |t|
  {
    var s := Path(|t|, h, off);
    s < |t| && t[s].Some? && HomeOf(|t|, t[s].value.ckey) == h
  }

  ghost predicate Marked(t: Table, hop: seq<byte>, h: nat)
    requires h < |t| == |hop| && 16 <= |t|
  {
    forall off: nat | off < 8 :: Bit(hop[h], off) <==> Belongs(t, h, off)
  }

  ghost predicate Near(t: Table, s: nat)
    requires s < |t|
  {
    t[s].Some? ==> Steps(|t|, s, HomeOf(|t|, t[s].value.ckey)) < 8
  }

  /** Bit `off` of `hop[h]` is set exactly when the slot `off` after `h` holds a key of home `h`, and every key is
      marked. */
  ghost predicate HopInv(t: Table, hop: seq<byte>) {
    && |t| == |hop| && 16 <= |t|
    && (forall h | 0 <= h < |t| :: Marked(t, hop, h))
    && (forall s | 0 <= s < |t| :: Near(t, s))
  }

  function Unmarked(cap: nat): (hop: seq<byte>)
    ensures |hop| == cap && forall h | 0 <= h < cap :: hop[h] == 0
  {
    seq(cap, _ => 0)
  }

  lemma EmptyInv(cap: nat)
    requires 16 <= cap
    ensures HopInv(Vacant(cap), Unmarked(cap))
  {
    NoBits();
  }

  lemma NoBits()
    ensures forall k: nat | k < 8 :: !Bit(0, k)
  {
  }

  /** Storing a key near its home and marking it. */
  lemma StoreKeeps(t: Table, hop: seq<byte>, e: nat, x: HopSlot, h: nat, off: nat)
    requires HopInv(t, hop) && e < |t| && t[e].None? && h == HomeOf(|t|, x.ckey) && off == Steps(|t|, e, h) < 8
    ensures HopInv(t[e := Some(x)], hop[h := PutBit(hop[h], off, true)])
  {
    hide Path, Steps, Bit, PutBit, HomeOf;
    var t', hop' := t[e := Some(x)], hop[h := PutBit(hop[h], off, true)];
    forall g | 0 <= g < |t| ensures Marked(t', hop', g) {
      forall o: nat | o < 8 ensures Bit(hop'[g], o) <==> Belongs(t', g, o) {
        assert Marked(t, hop, g);
        PathIs(|t|, g, o, e);
      }
    }
    forall s | 0 <= s < |t| ensures Near(t', s) {
      assert Near(t, s);
    }
  }

  /** Removing a key and its mark. */
  lemma RemoveKeeps(t: Table, hop: seq<byte>, c: nat, h: nat, off: nat)
    requires HopInv(t, hop) && c < |t| && t[c].Some? && h == HomeOf(|t|, t[c].value.ckey) && off == Steps(|t|, c, h) < 8
    ensures HopInv(t[c := None], hop[h := PutBit(hop[h], off, false)])
  {
    hide Path, Steps, Bit, PutBit, HomeOf;
    var t', hop' := t[c := None], hop[h := PutBit(hop[h], off, false)];
    forall g | 0 <= g < |t| ensures Marked(t', hop', g) {
      forall o: nat | o < 8 ensures Bit(hop'[g], o) <==> Belongs(t', g, o) {
        assert Marked(t, hop, g);
        PathIs(|t|, g, o, c);
      }
    }
    forall s | 0 <= s < |t| ensures Near(t', s) {
      assert Near(t, s);
    }
  }

  /** The slot `offset` before `slot`. */
  function Back(cap: nat, slot: nat, offset: nat): nat
    requires slot < cap && offset <= cap
  {
    (slot + cap - offset) % cap
  }

  lemma BackIs(cap: nat, slot: nat, offset: nat)
    requires 8 <= cap && slot < cap && 0 < offset < 8
    ensures Back(cap, slot, offset) == if slot >= offset then slot - offset else slot + cap - offset
  {
    Wrapped(cap, slot + cap - offset);
  }

  lemma BackSteps(cap: nat, slot: nat, offset: nat, h: nat)
    requires 16 <= cap && slot < cap && 0 < offset < 8 && h < cap
    ensures var c := Back(cap, slot, offset);
      && c < cap && c != slot
      && (Steps(cap, slot, h) >= offset ==> Steps(cap, c, h) + offset == Steps(cap, slot, h))
      && (Steps(cap, c, h) < 8 ==> Steps(cap, slot, h) == Steps(cap, c, h) + offset)
  {
    hide Back;
    BackIs(cap, slot, offset);
  }

  /** Nothing within reach before the empty slot can move into it. */
  ghost predicate Stuck(t: Table, empty: nat, upTo: nat)
    requires empty < |t| && 8 <= |t|
  {
    forall offset | 1 <= offset < upTo <= 8 :: !Movable(t, empty, Back(|t|, empty, offset))
  }

  ghost predicate Movable(t: Table, empty: nat, c: nat)
    requires empty < |t|
  {
    c < |t| && t[c].Some? && Steps(|t|, empty, HomeOf(|t|, t[c].value.ckey)) < 8
  }

  /** Dragging a key forward into the empty slot keeps the invariant and what is stored. */
  lemma MoveKeeps(t: Table, hop: seq<byte>, c: nat, empty: nat, h: nat, from: nat, to: nat)
    requires HopInv(t, hop) && c < |t| && empty < |t| && c != empty && t[c].Some? && t[empty].None?
    requires h == HomeOf(|t|, t[c].value.ckey) && from == Steps(|t|, c, h) && to == Steps(|t|, empty, h) < 8
    ensures from < 8 && Bit(hop[h], from)
    ensures var t', hop' := t[empty := t[c]][c := None], hop[h := PutBit(PutBit(hop[h], from, false), to, true)];
      HopInv(t', hop') && Items(t') == Items(t)
  {
    hide Steps, Bit, PutBit, HomeOf, Items;
    assert Near(t, c) && Marked(t, hop, h);
    PathIs(|t|, h, from, c);
    assert Belongs(t, h, from);
    hide HopInv;
    var removed := t[c := None];
    RemoveKeeps(t, hop, c, h, from);
    StoreKeeps(removed, hop[h := PutBit(hop[h], from, false)], empty, t[c].value, h, to);
    assert removed[empty := t[c]] == t[empty := t[c]][c := None];
    assert hop[h := PutBit(hop[h], from, false)][h := PutBit(PutBit(hop[h], from, false), to, true)]
        == hop[h := PutBit(PutBit(hop[h], from, false), to, true)];
    MoveItems(t, c, empty);
  }

  lemma MoveItems(t: Table, c: nat, empty: nat)
    requires c < |t| && empty < |t| && c != empty && t[c].Some? && t[empty].None?
    ensures Items(t[empty := t[c]][c := None]) == Items(t)
  {
    hide Items;
    var t1 := t[empty := t[c]];
    ItemsUpdate(t, empty, t[c]);
    ItemsUpdate(t1, c, None);
    Cancel(Items(t1[c := None]), One(t[c]), Items(t), multiset{});
  }

  lemma StoreItems(t: Table, e: nat, x: HopSlot)
    requires e < |t| && t[e].None?
    ensures Items(t[e := Some(x)]) == Items(t) + multiset{x}
  {
    ItemsUpdate(t, e, Some(x));
    assert Items(t[e := Some(x)]) + multiset{} == Items(t[e := Some(x)]);
  }

  class HopscotchBackend {
    const tid: u16
    var storage: seq<Entry>
    var table: Table
    var hopMap: seq<byte>
    var capacity: nat

    ghost predicate Inv()
      reads this`table, this`hopMap, this`capacity
    {
      |table| == capacity && HopInv(table, hopMap)
    }

    constructor (tid: u16)
      ensures this.tid == tid && storage == [] && capacity == 0
    {
      this.tid := tid;
      storage, table, hopMap, capacity := [], [], [], 0;
    }

    /** One relocation: the empty slot comes 1 to 7 slots closer without passing home, or nothing in reach can move. */
    method MoveSlotCloser(home: nat, empty: nat) returns (r: Option<nat>)
      requires Inv() && home < capacity && empty < capacity && table[empty].None? && Steps(capacity, empty, home) >= 8
      modifies this`table, this`hopMap
      ensures Inv() && Items(table) == old(Items(table))
      ensures r.Some? ==> r.value < capacity && table[r.value].None?
      ensures r.Some? ==>
        Steps(capacity, r.value, home) < Steps(capacity, empty, home) <= Steps(capacity, r.value, home) + 7
      ensures r.None? ==> table == old(table) && hopMap == old(hopMap) && Stuck(table, empty, 8)
    {
      hide Items, Steps, HomeOf, Bit, PutBit, Back;
      for offset := 1 to 8
        invariant table == old(table) && hopMap == old(hopMap) && Stuck(table, empty, offset)
      {
        BackSteps(capacity, empty, offset, home);
        var c := Back(capacity, empty, offset);
        if table[c].Some? {
          var h := HomeOf(capacity, table[c].value.ckey);
          var from := Steps(capacity, c, h);
          var to := Steps(capacity, empty, h);
          if to < 8 {
            MoveKeeps(table, hopMap, c, empty, h, from, to);
          }
          if from < 8 && Bit(hopMap[h], from) && to < 8 {
            hopMap := hopMap[h := PutBit(hopMap[h], from, false)];
            table := table[empty := table[c]];
            hopMap := hopMap[h := PutBit(hopMap[h], to, true)];
            table := table[c := None];
            assert hopMap == old(hopMap)[h := PutBit(PutBit(old(hopMap)[h], from, false), to, true)];
            return Some(c);
          }
        }
        assert !Movable(table, empty, c);
      }
      r := None;
    }

    /** The first empty slot from home on. */
    method FindEmpty(home: nat) returns (empty: nat, count: nat)
      requires |table| == capacity && home < capacity
      ensures empty < capacity && count <= capacity
      ensures count < capacity ==> table[empty].None?
      ensures count == capacity ==> forall s | 0 <= s < capacity :: table[s].Some?
      ensures table[home].None? ==> empty == home && count == 0
    {
      empty, count := home, 0;
      hide Path, Steps;
      PathIs(capacity, home, 0, home);
      assert Steps(capacity, home, home) == 0 by { SelfSteps(capacity, home); }
      while table[empty].Some? && count < capacity
        invariant count <= capacity && empty == Path(capacity, home, count) < capacity
        invariant forall j | 0 <= j < count ::
          Path(capacity, home, j) < capacity && table[Path(capacity, home, j)].Some?
        invariant table[home].None? ==> count == 0
        decreases capacity - count
      {
        PathAhead(capacity, home, count);
        AheadBehind(capacity, empty);
        empty := (empty + 1) % capacity;
        count := count + 1;
      }
      if count == capacity {
        forall s | 0 <= s < capacity ensures table[s].Some? {
          PathBack(capacity, s, home);
        }
      }
    }

    /** An empty slot out of the home's reach that no relocation brings closer. */
    ghost predicate OutOfReach(home: nat, empty: nat)
      reads this`table, this`capacity
    {
      && home < capacity == |table| && empty < capacity && capacity >= 8
      && table[empty].None? && Steps(capacity, empty, home) >= 8 && Stuck(table, empty, 8)
    }

    /** Insertion. It fails only when the table is full or no relocation is left; a free home slot is always taken. */
    method InsertSlot(x: HopSlot) returns (ok: bool)
      requires Inv() && capacity >= 16
      modifies this`table, this`hopMap
      ensures Inv() && Items(table) == old(Items(table)) + (if ok then multiset{x} else multiset{})
      ensures old(table)[HomeOf(capacity, x.ckey)].None? ==>
        ok && table == old(table)[HomeOf(capacity, x.ckey) := Some(x)]
      ensures !ok ==> Full(old(table)) || exists e: nat :: OutOfReach(HomeOf(capacity, x.ckey), e)
    {
      hide Items, Steps, HomeOf, Bit, PutBit, HopInv;
      assert |table| == |hopMap| by { InvLengths(); }
      var home := HomeOf(capacity, x.ckey);
      var empty: nat, count: nat := FindEmpty(home);
      if count == capacity { return false; }
      SelfSteps(capacity, home);
      while Steps(capacity, empty, home) >= 8
        invariant Inv() && Items(table) == old(Items(table))
        invariant empty < capacity && table[empty].None?
        invariant old(table)[home].None? ==> empty == home && table == old(table)
        decreases Steps(capacity, empty, home)
      {
        var closer := MoveSlotCloser(home, empty);
        if closer.None? {
          assert OutOfReach(home, empty);
          return false;
        }
        empty := closer.value;
      }
      var off := Steps(capacity, empty, home);
      InvLengths();
      StoreKeeps(table, hopMap, empty, x, home, off);
      StoreItems(table, empty, x);
      table := table[empty := Some(x)];
      hopMap := hopMap[home := PutBit(hopMap[home], off, true)];
      ok := true;
    }

    /** Inserts every slot; with more room than there are composite keys each one is at home. */
    method InsertAll(slots: seq<HopSlot>) returns (ok: bool)
      requires Inv() && table == Vacant(capacity) && DistinctCkeys(slots)
      modifies this`table, this`hopMap
      ensures Inv() && (ok ==> Items(table) == multiset(slots))
      ensures capacity >= CKEYS ==> ok
    {
      hide *;
      InvLengths();
      NoItems<HopSlot>(capacity);
      NoneAtHome(capacity);
      assert slots[..0] == [];
      ok := true;
      for i := 0 to |slots|
        invariant ok && Inv() && capacity >= 16 && |table| == capacity
        invariant Items(table) == multiset(slots[..i])
        invariant capacity >= CKEYS ==> AtHome(table, slots[..i])
      {
        assert slots[..i + 1] == slots[..i] + [slots[i]];
        if capacity >= CKEYS { HomeFree(table, slots, i); }
        ok := InsertSlot(slots[i]);
        InvLengths();
        if !ok { return false; }
      }
      assert slots[..|slots|] == slots;
    }

    /** The composite keys of the index of `es` are in the table. */
    ghost predicate Holds(es: seq<Entry>)
      reads this`table, this`hopMap, this`capacity
    {
      if capacity == 0 then es == []
      else Inv() && Items(table) == multiset(HopSlots(tid, Index(es)))
    }

    /** Doubles the capacity until every key finds a place. */
    method BuildFromEntries(ps: seq<(i32, nat)>)
      modifies this
      ensures Holds(Narrowed(ps)) && storage == Storage(Narrowed(ps))
    {
      if ps == [] {
        capacity, table, hopMap, storage := 0, [], [], [];
        NothingStored();
        return;
      }
      var infos;
      infos, storage := BuildIndex(ps, []);
      assert [] + Storage(Narrowed(ps)) == Storage(Narrowed(ps));
      hide *;
      var slots := HopSlots(tid, infos);
      SlotsDistinct(tid, Narrowed(ps));
      Place(slots);
      BuiltHolds(Narrowed(ps));
    }

    method Place(slots: seq<HopSlot>)
      requires DistinctCkeys(slots)
      modifies this`table, this`hopMap, this`capacity
      ensures Inv() && capacity >= 16 && Items(table) == multiset(slots)
    {
      hide Items, DistinctCkeys, HopInv;
      capacity := InitialCapacity(|slots|);
      var ok := false;
      while !ok
        invariant capacity >= 16
        invariant ok ==> Inv() && Items(table) == multiset(slots)
        decreases if capacity < CKEYS then CKEYS - capacity else 0, !ok
      {
        table := Vacant(capacity);
        hopMap := Unmarked(capacity);
        EmptyInv(capacity);
        ok := InsertAll(slots);
        if !ok {
          capacity := capacity * 2;
        }
      }
    }

    lemma BuiltHolds(es: seq<Entry>)
      requires Inv() && capacity >= 16 && Items(table) == multiset(HopSlots(tid, Index(es)))
      ensures Holds(es)
    {
    }

    /** At most the eight neighbours of the home slot are looked at; a count of 0 means there is no such key. */
    method Probe(k: i32, ghost es: seq<Entry>) returns (begin: nat, count: nat)
      requires Holds(es)
      ensures count == |Matching(es, k)|
      ensures if count > 0 then Info(k, begin, count) in Index(es) else begin == 0
    {
      if capacity == 0 {
        return 0, 0;
      }
      InvLengths();
      var ck := MakeCkey(tid, k);
      var home: nat := HomeOf(capacity, ck);
      assert Missed(table, hopMap, home, 0, ck);
      hide *;
      for off := 0 to 8
        invariant Missed(table, hopMap, home, off, ck)
      {
        if Bit(hopMap[home], off) {
          var s: nat := (home + off) % capacity;
          PathOf(capacity, home, off);
          if table[s].Some? && table[s].value.ckey == ck {
            Present(es, s, k);
            return table[s].value.start, table[s].value.count;
          }
        }
        MissedOne(table, hopMap, home, off, ck);
      }
      NotStored(es, k, home, ck);
      return 0, 0;
    }

    lemma {:induction false} Present(es: seq<Entry>, s: nat, k: i32)
      requires Holds(es) && capacity > 0 && s < |table| && table[s].Some? && table[s].value.ckey == MakeCkey(tid, k)
      ensures var x := table[s].value; Info(k, x.start, x.count) in Index(es) && x.count == |Matching(es, k)| > 0
    {
      hide Matching, Items, Index, MakeCkey, HopInv;
      var infos := Index(es);
      ItemsIn(table, table[s].value);
      var i :| 0 <= i < |infos| && HopSlots(tid, infos)[i] == table[s].value;
      CkeyOfInfo(es, infos[i]);
      CkeyInjective(tid, infos[i].key, k);
      FoundKey(multiset(infos), es, infos[i]);
    }

    lemma {:induction false} NotStored(es: seq<Entry>, k: i32, home: nat, ck: u64)
      requires Holds(es) && capacity > 0 && ck == MakeCkey(tid, k) && home == HomeOf(capacity, ck)
      requires |table| == |hopMap| == capacity && Missed(table, hopMap, home, 8, ck)
      ensures Matching(es, k) == []
    {
      hide Matching, Items, Index, MakeCkey, HomeOf, HopInv, Missed;
      var infos := Index(es);
      forall x: Info | x in multiset(infos) ensures x.key != k {
        CkeyOfInfo(es, x);
        var i :| 0 <= i < |infos| && infos[i] == x;
        var slot := HopSlots(tid, infos)[i];
        assert slot in multiset(HopSlots(tid, infos));
        ItemsIn(table, slot);
        var s :| 0 <= s < capacity && table[s] == Some(slot);
        NotHere(table, hopMap, home, ck, s);
      }
      MissingKey(multiset(infos), es, k);
    }

    lemma InvLengths()
      requires Inv()
      ensures |table| == |hopMap| == capacity >= 16
    {
    }
  }

  lemma SelfSteps(cap: nat, home: nat)
    requires home < cap
    ensures Steps(cap, home, home) == 0 && Path(cap, home, 0) == home
  {
  }

  /** `ceil(n / 0.45)`, at least 16. */
  function InitialCapacity(n: nat): (c: nat)
    ensures c >= 16
  {
    var c := (20 * n + 8) / 9;
    if c < 16 then 16 else c
  }

  /** There are this many composite keys. */
  const CKEYS: nat := 0x1_0000_0000_0000_0000

  ghost predicate DistinctCkeys(slots: seq<HopSlot>) {
    forall a, b | 0 <= a < b < |slots| :: slots[a].ckey != slots[b].ckey
  }

  ghost predicate AtHome(t: Table, slots: seq<HopSlot>) {
    forall s | 0 <= s < |t| && t[s].Some? :: t[s].value.ckey == s && t[s].value in slots
  }

  lemma NoneAtHome(cap: nat)
    ensures AtHome(Vacant(cap), [])
  {
  }

  lemma HomeFree(t: Table, slots: seq<HopSlot>, i: nat)
    requires i < |slots| && |t| >= CKEYS && AtHome(t, slots[..i]) && DistinctCkeys(slots)
    ensures var h := HomeOf(|t|, slots[i].ckey); t[h].None? && AtHome(t[h := Some(slots[i])], slots[..i + 1])
  {
    var h := HomeOf(|t|, slots[i].ckey);
    assert h == slots[i].ckey;
    assert slots[..i + 1] == slots[..i] + [slots[i]];
    assert forall x | x in slots[..i] :: x.ckey != slots[i].ckey;
  }

  /** The index entries with composite keys. */
  function HopSlots(tid: u16, infos: seq<Info>): (slots: seq<HopSlot>)
    ensures |slots| == |infos|
    ensures forall i | 0 <= i < |slots| :: slots[i] == ToSlot(tid, infos[i])
  {
    seq(|infos|, i requires 0 <= i < |infos| => ToSlot(tid, infos[i]))
  }

  function ToSlot(tid: u16, x: Info): HopSlot {
    HopSlot(if FIRST_KEY <= x.key < KEY_END then MakeCkey(tid, x.key) else 0, x.start, x.count)
  }

  lemma CkeyOfInfo(es: seq<Entry>, x: Info)
    requires x in Index(es)
    ensures FIRST_KEY <= x.key < KEY_END
  {
    hide Matching, Infos, Grouped;
    FoundKey(multiset(Index(es)), es, x);
  }

  lemma SlotsDistinct(tid: u16, es: seq<Entry>)
    ensures DistinctCkeys(HopSlots(tid, Index(es)))
  {
    hide Infos, MakeCkey;
    var infos := Index(es);
    KeysDistinct(FIRST_KEY, KEY_END, es, 0);
    forall a, b | 0 <= a < b < |infos| ensures HopSlots(tid, infos)[a].ckey != HopSlots(tid, infos)[b].ckey {
      assert infos[a].key < infos[b].key;
      CkeyOfInfo(es, infos[a]);
      CkeyOfInfo(es, infos[b]);
      CkeyInjective(tid, infos[a].key, infos[b].key);
    }
  }

  /** None of the first `n` neighbours is marked and holds the key. */
  ghost predicate Missed(t: Table, hop: seq<byte>, home: nat, n: nat, ck: nat)
    requires home < |t| == |hop|
  {
    n <= 8 <= |t| && forall off | 0 <= off < n :: Absent(t, hop, home, off, ck)
  }

  ghost predicate Absent(t: Table, hop: seq<byte>, home: nat, off: nat, ck: nat)
    requires home < |t| == |hop| && off < 8 <= |t|
  {
    var s := Path(|t|, home, off);
    !Bit(hop[home], off) || (s < |t| && (t[s].None? || t[s].value.ckey != ck))
  }

  lemma MissedOne(t: Table, hop: seq<byte>, home: nat, off: nat, ck: nat)
    requires home < |t| == |hop| && off < 8 && Missed(t, hop, home, off, ck)
    requires !Bit(hop[home], off) ||
      (var s := Path(|t|, home, off); s < |t| && (t[s].None? || t[s].value.ckey != ck))
    ensures Missed(t, hop, home, off + 1, ck)
  {
    hide Bit, Path;
  }

  lemma PathOf(cap: nat, home: nat, off: nat)
    requires home < cap && off < 8 <= cap
    ensures (home + off) % cap == Path(cap, home, off) < cap
  {
  }

  /** A key is among the marked neighbours of its home or nowhere. */
  lemma NotHere(t: Table, hop: seq<byte>, home: nat, ck: nat, s: nat)
    requires HopInv(t, hop) && home < |t| && home == HomeOf(|t|, ck)
    requires Missed(t, hop, home, 8, ck) && s < |t| && t[s].Some?
    ensures t[s].value.ckey != ck
  {
    hide Bit, Path, HomeOf, Steps;
    var d := Steps(|t|, s, home);
    assert Near(t, s) && Marked(t, hop, home);
    if d < 8 {
      PathIs(|t|, home, d, s);
      assert Absent(t, hop, home, d, ck);
    }
  }

  lemma NothingStored()
    ensures Storage(Narrowed([])) == [] && Narrowed([]) == []
  {
    hide Grouped;
    assert forall k: i32 :: Matching([], k) == [];
    SkipKeys(FIRST_KEY, KEY_END, KEY_END, [], 0);
    PastEnd(KEY_END, KEY_END, []);
  }

  lemma {:induction false} PastEnd(k: int, end: int, es: seq<Entry>)
    requires k >= end
    ensures Grouped(k, end, es) == []
  {
  }

  /** Built on a fresh object, a probe answers any key with exactly its row ids, in input order. */
  method BuildAndProbe(tid: u16, ps: seq<(i32, nat)>, k: i32) returns (rows: seq<Entry>)
    ensures rows == Matching(Narrowed(ps), k)
    ensures exists places :: KeyRows(ps, k, rows, places)
  {
    hide *;
    var table := new HopscotchBackend(tid);
    table.BuildFromEntries(ps);
    var begin, count := table.Probe(k, Narrowed(ps));
    StoredFirst(ps, table.storage);
    ProbeSlice(table.storage, Narrowed(ps), k, begin, count);
    rows := table.storage[begin..begin + count];
    MatchingRows(ps, k);
  }
}
