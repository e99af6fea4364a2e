/** The flat "unchained" hash table: a counting sort by hash prefix with a 16-bit Bloom tag per slot. */
module Unchained {
  import opened Bytes
  import opened IntPages
  import opened ColumnBuffers

  datatype Entry = Entry(key: i32, row: u32)

  // ---------- hashing ----------

  /** Knuth's multiplicative hash: the low 64 bits of the product. */
  function Hash(k: i32): u64 { Unsigned(k) * 11400714819323198485 % 0x1_0000_0000_0000_0000 }

  function Pow2(n: nat): nat
    ensures Pow2(n) > 0
  {
    if n == 0 then 1 else 2 * Pow2(n - 1)
  }

  /** Directory geometry: `(h >> shift) & (size - 1)`. */
  datatype Dir = Dir(shift: nat, size: nat) {
    function SlotOf(k: i32): nat
      requires size > 0
    {
      Hash(k) / Pow2(shift) % size
    }

    ghost predicate Valid() { 46 <= shift <= 54 && size == Pow2(64 - shift) }
  }

  lemma Pow2Sum(a: nat, b: nat)
    ensures Pow2(a + b) == Pow2(a) * Pow2(b)
  {
    if a > 0 { Pow2Sum(a - 1, b); }
  }

  lemma Pow2Const()
    ensures Pow2(10) == 1024 && Pow2(18) == 262144 && Pow2(64) == 0x1_0000_0000_0000_0000
  {
    assert Pow2(4) == 16;
    Pow2Sum(4, 4); Pow2Sum(8, 2); Pow2Sum(10, 8); Pow2Sum(8, 8); Pow2Sum(16, 16); Pow2Sum(32, 32);
  }

  /** With shift = 64 - log2(size) the shifted hash is already a slot: the mask removes nothing. */
  lemma MaskIsIdle(d: Dir, k: i32)
    requires d.Valid()
    ensures d.SlotOf(k) == Hash(k) / Pow2(d.shift) < d.size
  {
    hide Hash;
    Pow2Const();
    Pow2Sum(d.shift, 64 - d.shift);
    QuotientBound(Hash(k), Pow2(d.shift), d.size);
  }

  lemma QuotientBound(h: nat, p: nat, m: nat)
    requires p > 0 && m > 0 && h < p * m
    ensures h / p < m && h / p % m == h / p
  {
    assert p * (h / p) <= h;
    MulOrder(p, m, h / p);
  }

  lemma MulOrder(p: nat, m: nat, q: nat)
    ensures q >= m ==> p * q >= p * m
  {
    if q >= m {
      assert p * q == p * m + p * (q - m);
    }
  }

  // ---------- Bloom tags ----------

  /** Four bits chosen by four nibbles of the hash. */
  function Tag(h: u64): bv16 {
    (1 << (h / 0x10 % 16)) | (1 << (h / 0x1000 % 16)) | (1 << (h / 0x10_0000 % 16)) | (1 << (h / 0x1000_0000 % 16))
  }

  predicate MaybeContains(bloom: bv16, tag: bv16) { bloom & tag == tag }

  function AddTag(bloom: bv16, tag: bv16): bv16 { bloom | tag }

  lemma OrContains(bloom: bv16, tag: bv16, other: bv16)
    ensures MaybeContains(AddTag(bloom, tag), tag)
    ensures MaybeContains(bloom, other) ==> MaybeContains(AddTag(bloom, tag), other)
  {
  }

  // ---------- the specification: a stable sort into slots ----------

  /** The entries of one slot, in input order. */
  function Bucket(d: Dir, entries: seq<Entry>, s: nat): (b: seq<Entry>)
    requires d.size > 0
    ensures |b| <= |entries|
  {
    if entries == [] then [] else
      var e := entries[|entries| - 1];
      Bucket(d, entries[..|entries| - 1], s) + if d.SlotOf(e.key) == s then [e] else []
  }

  function Tags(d: Dir, entries: seq<Entry>, s: nat): bv16
    requires d.size > 0
  {
    if entries == [] then 0 else
      var e := entries[|entries| - 1];
      var before := Tags(d, entries[..|entries| - 1], s);
      if d.SlotOf(e.key) == s then AddTag(before, Tag(Hash(e.key))) else before
  }

  /** Where slot `s` begins: the entries of all smaller slots come first. */
  function StartOf(d: Dir, entries: seq<Entry>, s: nat): nat
    requires d.size > 0
  {
    if s == 0 then 0 else StartOf(d, entries, s - 1) + |Bucket(d, entries, s - 1)|
  }

  /** The rows with key `k`, in input order. */
  function Matching(entries: seq<Entry>, k: i32): (m: seq<Entry>)
    ensures forall e | e in m :: e in entries && e.key == k
  {
    if entries == [] then [] else
      var e := entries[|entries| - 1];
      Matching(entries[..|entries| - 1], k) + if e.key == k then [e] else []
  }

  lemma {:induction false} BucketSnoc(d: Dir, entries: seq<Entry>, e: Entry, s: nat)
    requires d.size > 0
    ensures Bucket(d, entries + [e], s) ==
      if d.SlotOf(e.key) == s then Bucket(d, entries, s) + [e] else Bucket(d, entries, s)
    ensures Tags(d, entries + [e], s) ==
      if d.SlotOf(e.key) == s then AddTag(Tags(d, entries, s), Tag(Hash(e.key))) else Tags(d, entries, s)
  {
    assert (entries + [e])[..|entries|] == entries;
  }

  lemma {:induction false} MatchingSnoc(entries: seq<Entry>, e: Entry, k: i32)
    ensures Matching(entries + [e], k) == if e.key == k then Matching(entries, k) + [e] else Matching(entries, k)
  {
    assert (entries + [e])[..|entries|] == entries;
  }

  /** A prefix of the input fills a prefix of every slot. */
  lemma {:induction false} BucketPrefix(d: Dir, entries: seq<Entry>, i: nat, s: nat)
    requires d.size > 0 && i <= |entries|
    ensures |Bucket(d, entries[..i], s)| <= |Bucket(d, entries, s)|
  {
    if i == |entries| {
      assert entries[..i] == entries;
    } else {
      BucketPrefix(d, entries[..|entries| - 1], i, s);
      assert entries[..|entries| - 1][..i] == entries[..i];
    }
  }

  lemma {:induction false} StartMonotone(d: Dir, entries: seq<Entry>, s: nat, t: nat)
    requires d.size > 0 && s <= t
    ensures StartOf(d, entries, s) <= StartOf(d, entries, t)
  {
    if s < t { StartMonotone(d, entries, s, t - 1); }
  }

  lemma {:induction false} StartSnoc(d: Dir, entries: seq<Entry>, e: Entry, s: nat)
    requires d.size > 0
    ensures StartOf(d, entries + [e], s) == StartOf(d, entries, s) + if d.SlotOf(e.key) < s then 1 else 0
  {
    hide Hash, Bucket, Tags;
    if s > 0 {
      StartSnoc(d, entries, e, s - 1);
      BucketSnoc(d, entries, e, s - 1);
    }
  }

  /** All slots together hold every entry. */
  lemma {:induction false} StartTotal(d: Dir, entries: seq<Entry>)
    requires d.size > 0
    ensures StartOf(d, entries, d.size) == |entries|
  {
    if entries == [] {
      StartEmpty(d, d.size);
    } else {
      var shorter, e := entries[..|entries| - 1], entries[|entries| - 1];
      StartTotal(d, shorter);
      assert entries == shorter + [e];
      StartSnoc(d, shorter, e, d.size);
    }
  }

  lemma {:induction false} StartEmpty(d: Dir, s: nat)
    requires d.size > 0
    ensures StartOf(d, [], s) == 0
  {
    if s > 0 { StartEmpty(d, s - 1); }
  }

  // ---------- what a built table holds ----------

  /** The directory's END offsets, the Bloom words and the tuples of `entries`. */
  ghost predicate Built(d: Dir, entries: seq<Entry>, ends: seq<u32>, bloom: seq<bv16>, tuples: seq<Entry>) {
    && d.size > 0 && |ends| == |bloom| == d.size && |tuples| == |entries|
    && (forall s: nat | s < d.size :: ends[s] == StartOf(d, entries, s + 1))
    && (forall s: nat | s < d.size :: bloom[s] == Tags(d, entries, s))
    && (forall s: nat | s < d.size :: SlotHolds(d, entries, tuples, s))
  }

  /** Slot `s` occupies exactly the stretch between its start and the next slot's, in input order. */
  ghost predicate SlotHolds(d: Dir, entries: seq<Entry>, tuples: seq<Entry>, s: nat)
    requires d.size > 0
  {
    && StartOf(d, entries, s) <= StartOf(d, entries, s + 1) <= |tuples|
    && tuples[StartOf(d, entries, s)..StartOf(d, entries, s + 1)] == Bucket(d, entries, s)
  }

  // ---------- probing ----------

  /** Filtering a key's slot finds what filtering the whole input finds. */
  lemma {:induction false} MatchingInBucket(d: Dir, entries: seq<Entry>, k: i32)
    requires d.size > 0
    ensures Matching(Bucket(d, entries, d.SlotOf(k)), k) == Matching(entries, k)
  {
    if entries != [] {
      hide Hash;
      var shorter, e := entries[..|entries| - 1], entries[|entries| - 1];
      MatchingInBucket(d, shorter, k);
      assert entries == shorter + [e];
      BucketSnoc(d, shorter, e, d.SlotOf(k));
      MatchingSnoc(Bucket(d, shorter, d.SlotOf(k)), e, k);
      MatchingSnoc(shorter, e, k);
    }
  }

  /** A key that is present passes its slot's Bloom word. */
  lemma {:induction false} BloomKeeps(d: Dir, entries: seq<Entry>, k: i32)
    requires d.size > 0
    ensures MaybeContains(Tags(d, entries, d.SlotOf(k)), Tag(Hash(k))) || Matching(entries, k) == []
  {
    hide *;
    if entries == [] {
      NoEntries(d, k);
    } else {
      var shorter, e := entries[..|entries| - 1], entries[|entries| - 1];
      BloomKeeps(d, shorter, k);
      assert entries == shorter + [e];
      BucketSnoc(d, shorter, e, d.SlotOf(k));
      MatchingSnoc(shorter, e, k);
      OrContains(Tags(d, shorter, d.SlotOf(k)), Tag(Hash(e.key)), Tag(Hash(k)));
    }
  }

  lemma TagNotZero(h: u64)
    ensures Tag(h) != 0
  {
    OneBit(h / 0x10 % 16);
    var rest: bv16 :=
      (1 << (h / 0x1000 % 16)) | (1 << (h / 0x10_0000 % 16)) | (1 << (h / 0x1000_0000 % 16));
    OrNotZero(1 << (h / 0x10 % 16), rest);
  }

  lemma OneBit(i: nat)
    requires i < 16
    ensures (1 as bv16) << i != 0
  {
  }

  lemma OrNotZero(x: bv16, y: bv16)
    requires x != 0
    ensures x | y != 0
  {
  }

  /** A key whose slot is empty is rejected. */
  lemma {:induction false} BloomRejects(d: Dir, entries: seq<Entry>, k: i32)
    requires d.size > 0 && Bucket(d, entries, d.SlotOf(k)) == []
    ensures !MaybeContains(Tags(d, entries, d.SlotOf(k)), Tag(Hash(k)))
  {
    NoTags(d, entries, d.SlotOf(k));
    TagNotZero(Hash(k));
    ZeroContains(Tag(Hash(k)));
  }

  lemma ZeroContains(tag: bv16)
    requires tag != 0
    ensures !MaybeContains(0, tag)
  {
  }

  lemma {:induction false} NoTags(d: Dir, entries: seq<Entry>, s: nat)
    requires d.size > 0 && Bucket(d, entries, s) == []
    ensures Tags(d, entries, s) == 0
  {
    if entries != [] { NoTags(d, entries[..|entries| - 1], s); }
  }

  lemma {:induction false} NoEntries(d: Dir, k: i32)
    requires d.size > 0
    ensures Matching([], k) == [] && Below(d, [], 0) == multiset{}
  {
  }

  /** Directory, Bloom words and tuples depend on nothing but the entries. */
  lemma BuiltUnique(d: Dir, entries: seq<Entry>, ends: seq<u32>, bloom: seq<bv16>, tuples: seq<Entry>,
                    ends': seq<u32>, bloom': seq<bv16>, tuples': seq<Entry>)
    requires Built(d, entries, ends, bloom, tuples) && Built(d, entries, ends', bloom', tuples')
    ensures ends == ends' && bloom == bloom' && tuples == tuples'
  {
    hide StartOf, Bucket, Tags;
    StartTotal(d, entries);
    assert StartOf(d, entries, 0) == 0 by { StartZero(d, entries); }
    SameUpTo(d, entries, tuples, tuples', d.size);
    assert tuples[..|entries|] == tuples && tuples'[..|entries|] == tuples';
  }

  lemma {:induction false} StartZero(d: Dir, entries: seq<Entry>)
    requires d.size > 0
    ensures StartOf(d, entries, 0) == 0
  {
  }

  lemma {:induction false} SameUpTo(d: Dir, entries: seq<Entry>, tuples: seq<Entry>, tuples': seq<Entry>, s: nat)
    requires d.size > 0 && s <= d.size
    requires forall t: nat | t < d.size :: SlotHolds(d, entries, tuples, t) && SlotHolds(d, entries, tuples', t)
    ensures StartOf(d, entries, s) <= |tuples| && StartOf(d, entries, s) <= |tuples'|
    ensures tuples[..StartOf(d, entries, s)] == tuples'[..StartOf(d, entries, s)]
  {
    if s == 0 {
      StartZero(d, entries);
    } else {
      SameUpTo(d, entries, tuples, tuples', s - 1);
      hide *;
      SlotPart(d, entries, tuples, s - 1);
      SlotPart(d, entries, tuples', s - 1);
    }
  }

  /** The sort loses and invents nothing. */
  lemma BuiltIsPermutation(d: Dir, entries: seq<Entry>, ends: seq<u32>, bloom: seq<bv16>, tuples: seq<Entry>)
    requires Built(d, entries, ends, bloom, tuples)
    ensures multiset(tuples) == multiset(entries)
  {
    hide StartOf, Bucket, Tags;
    StartTotal(d, entries);
    SlotsCounted(d, entries, tuples, d.size);
    assert tuples[..|tuples|] == tuples;
    AllInSlots(d, entries);
  }

  /** The entries of the slots below `s`, as a multiset. */
  ghost function Below(d: Dir, entries: seq<Entry>, s: nat): multiset<Entry>
    requires d.size > 0
  {
    if entries == [] then multiset{} else
      var e := entries[|entries| - 1];
      Below(d, entries[..|entries| - 1], s) + if d.SlotOf(e.key) < s then multiset{e} else multiset{}
  }

  lemma {:induction false} BelowStep(d: Dir, entries: seq<Entry>, s: nat)
    requires d.size > 0
    ensures Below(d, entries, s + 1) == Below(d, entries, s) + multiset(Bucket(d, entries, s))
    ensures Below(d, entries, 0) == multiset{}
  {
    if entries != [] {
      hide Hash;
      BelowStep(d, entries[..|entries| - 1], s);
    }
  }

  lemma {:induction false} AllInSlots(d: Dir, entries: seq<Entry>)
    requires d.size > 0
    ensures Below(d, entries, d.size) == multiset(entries)
  {
    if entries != [] {
      hide Hash;
      AllInSlots(d, entries[..|entries| - 1]);
      assert entries == entries[..|entries| - 1] + [entries[|entries| - 1]];
    }
  }

  lemma {:induction false} SlotsCounted(d: Dir, entries: seq<Entry>, tuples: seq<Entry>, s: nat)
    requires d.size > 0 && s <= d.size
    requires forall t: nat | t < d.size :: SlotHolds(d, entries, tuples, t)
    ensures StartOf(d, entries, s) <= |tuples|
    ensures multiset(tuples[..StartOf(d, entries, s)]) == Below(d, entries, s)
  {
    hide *;
    if s == 0 {
      StartZero(d, entries);
      BelowStep(d, entries, 0);
      assert tuples[..0] == [];
    } else {
      SlotsCounted(d, entries, tuples, s - 1);
      SlotPart(d, entries, tuples, s - 1);
      BelowStep(d, entries, s - 1);
    }
  }

  lemma SlotPart(d: Dir, entries: seq<Entry>, tuples: seq<Entry>, s: nat)
    requires d.size > 0 && SlotHolds(d, entries, tuples, s)
    ensures StartOf(d, entries, s) <= StartOf(d, entries, s + 1) <= |tuples|
    ensures tuples[..StartOf(d, entries, s + 1)] == tuples[..StartOf(d, entries, s)] + Bucket(d, entries, s)
  {
    hide StartOf, Bucket;
    var lo, hi := StartOf(d, entries, s), StartOf(d, entries, s + 1);
    assert tuples[..hi] == tuples[..lo] + tuples[lo..hi];
  }

  // ---------- the build phases on values ----------

  ghost predicate Counted(d: Dir, prefix: seq<Entry>, counts: seq<u32>, bloom: seq<bv16>) {
    && d.size > 0 && |counts| == |bloom| == d.size
    && forall s: nat | s < d.size :: counts[s] == |Bucket(d, prefix, s)| && bloom[s] == Tags(d, prefix, s)
  }

  lemma CountStep(d: Dir, prefix: seq<Entry>, e: Entry, counts: seq<u32>, bloom: seq<bv16>)
    requires Counted(d, prefix, counts, bloom) && |prefix| < 0xffff_ffff
    ensures var s := d.SlotOf(e.key);
      && counts[s] < 0xffff_ffff
      && Counted(d, prefix + [e], counts[s := counts[s] + 1], bloom[s := AddTag(bloom[s], Tag(Hash(e.key)))])
  {
    hide Bucket, Tags, Hash, Tag, AddTag;
    forall s: nat | s < d.size ensures var b := Bucket(d, prefix + [e], s);
        b == (if d.SlotOf(e.key) == s then Bucket(d, prefix, s) + [e] else Bucket(d, prefix, s))
        && Tags(d, prefix + [e], s) ==
          if d.SlotOf(e.key) == s then AddTag(Tags(d, prefix, s), Tag(Hash(e.key))) else Tags(d, prefix, s)
    {
      BucketSnoc(d, prefix, e, s);
    }
  }

  lemma NothingCounted(d: Dir, counts: seq<u32>, bloom: seq<bv16>)
    requires d.size > 0 && |counts| == |bloom| == d.size
    requires forall s | 0 <= s < d.size :: counts[s] == 0 && bloom[s] == 0
    ensures Counted(d, [], counts, bloom)
  {
  }

  /** The scatter loop: every slot's write pointer stands behind the entries it has received so far. */
  ghost predicate Scattered(d: Dir, prefix: seq<Entry>, entries: seq<Entry>, ptrs: seq<u32>, tuples: seq<Entry>) {
    && d.size > 0 && prefix <= entries && |ptrs| == d.size && |tuples| == |entries|
    && forall s: nat | s < d.size :: SlotFilled(d, prefix, entries, ptrs, tuples, s)
  }

  ghost predicate SlotFilled(d: Dir, prefix: seq<Entry>, entries: seq<Entry>, ptrs: seq<u32>, tuples: seq<Entry>,
                             s: nat)
    requires d.size > 0 && s < |ptrs|
  {
    var lo := StartOf(d, entries, s);
    && ptrs[s] == lo + |Bucket(d, prefix, s)| <= StartOf(d, entries, s + 1) <= |tuples|
    && tuples[lo..ptrs[s]] == Bucket(d, prefix, s)
  }

  /** Room for the next entry of its slot, apart from every other slot. */
  lemma ScatterRoom(d: Dir, prefix: seq<Entry>, e: Entry, entries: seq<Entry>, s: nat)
    requires d.size > 0 && prefix + [e] <= entries && s < d.size
    ensures var n := if d.SlotOf(e.key) == s then 1 else 0;
      StartOf(d, entries, s) + |Bucket(d, prefix, s)| + n <= StartOf(d, entries, s + 1) <= |entries|
  {
    hide Hash, Bucket, Tags;
    assert entries[..|prefix| + 1] == prefix + [e];
    BucketPrefix(d, entries, |prefix| + 1, s);
    BucketSnoc(d, prefix, e, s);
    assert StartOf(d, entries, s + 1) == StartOf(d, entries, s) + |Bucket(d, entries, s)|;
    StartTotal(d, entries);
    StartMonotone(d, entries, s + 1, d.size);
  }

  lemma ScatterStep(d: Dir, prefix: seq<Entry>, e: Entry, entries: seq<Entry>, ptrs: seq<u32>, tuples: seq<Entry>)
    requires Scattered(d, prefix, entries, ptrs, tuples) && prefix + [e] <= entries && |entries| < 0x1_0000_0000
    ensures var s := d.SlotOf(e.key);
      && ptrs[s] < |tuples|
      && Scattered(d, prefix + [e], entries, ptrs[s := ptrs[s] + 1], tuples[ptrs[s] := e])
  {
    hide Hash, Bucket, StartOf, SlotFilled;
    var s0 := d.SlotOf(e.key);
    ScatterRoom(d, prefix, e, entries, s0);
    SlotPointer(d, prefix, entries, ptrs, tuples, s0);
    var more, ptrs', tuples' := prefix + [e], ptrs[s0 := ptrs[s0] + 1], tuples[ptrs[s0] := e];
    forall s: nat | s < d.size ensures SlotFilled(d, more, entries, ptrs', tuples', s) {
      ScatterSlot(d, prefix, e, entries, ptrs, tuples, s);
    }
  }

  lemma SlotPointer(d: Dir, prefix: seq<Entry>, entries: seq<Entry>, ptrs: seq<u32>, tuples: seq<Entry>, s: nat)
    requires Scattered(d, prefix, entries, ptrs, tuples) && s < d.size
    ensures ptrs[s] == StartOf(d, entries, s) + |Bucket(d, prefix, s)| <= StartOf(d, entries, s + 1) <= |tuples|
  {
    assert SlotFilled(d, prefix, entries, ptrs, tuples, s);
  }

  lemma ScatterSlot(d: Dir, prefix: seq<Entry>, e: Entry, entries: seq<Entry>, ptrs: seq<u32>, tuples: seq<Entry>,
                    s: nat)
    requires Scattered(d, prefix, entries, ptrs, tuples) && prefix + [e] <= entries && |entries| < 0x1_0000_0000
    requires s < d.size
    ensures ptrs[d.SlotOf(e.key)] < |tuples|
    ensures SlotFilled(d, prefix + [e], entries, ptrs[d.SlotOf(e.key) := ptrs[d.SlotOf(e.key)] + 1],
                       tuples[ptrs[d.SlotOf(e.key)] := e], s)
  {
    hide Hash, Bucket, StartOf;
    var s0 := d.SlotOf(e.key);
    ScatterRoom(d, prefix, e, entries, s0);
    ScatterRoom(d, prefix, e, entries, s);
    SlotPointer(d, prefix, entries, ptrs, tuples, s0);
    assert SlotFilled(d, prefix, entries, ptrs, tuples, s);
    BucketSnoc(d, prefix, e, s);
    var lo := StartOf(d, entries, s);
    var after := tuples[ptrs[s0] := e];
    if s == s0 {
      PutBehind(tuples, lo, ptrs[s], e);
    } else {
      if s < s0 { StartMonotone(d, entries, s + 1, s0); } else { StartMonotone(d, entries, s0 + 1, s); }
      PutOutside(tuples, lo, ptrs[s], ptrs[s0], e);
    }
  }

  lemma PutBehind(tuples: seq<Entry>, lo: nat, hi: nat, e: Entry)
    requires lo <= hi < |tuples|
    ensures tuples[hi := e][lo..hi + 1] == tuples[lo..hi] + [e]
  {
  }

  lemma PutOutside(tuples: seq<Entry>, lo: nat, hi: nat, at: nat, e: Entry)
    requires lo <= hi <= |tuples| && at < |tuples| && (at < lo || hi <= at)
    ensures tuples[at := e][lo..hi] == tuples[lo..hi]
  {
  }

  lemma {:induction false} NothingScattered(d: Dir, entries: seq<Entry>, ptrs: seq<u32>, tuples: seq<Entry>)
    requires d.size > 0 && |ptrs| == d.size && |tuples| == |entries|
    requires forall s: nat | s < d.size :: ptrs[s] == StartOf(d, entries, s)
    ensures Scattered(d, [], entries, ptrs, tuples)
  {
    forall s: nat | s < d.size ensures SlotFilled(d, [], entries, ptrs, tuples, s) {
      StartTotal(d, entries);
      StartMonotone(d, entries, s, s + 1);
      StartMonotone(d, entries, s + 1, d.size);
    }
  }

  /** All entries placed: each pointer has reached its slot's END, and the table is built. */
  lemma {:induction false} ScatterDone(d: Dir, entries: seq<Entry>, ends: seq<u32>, bloom: seq<bv16>, ptrs: seq<u32>,
                                       tuples: seq<Entry>)
    requires Scattered(d, entries, entries, ptrs, tuples) && |ends| == |bloom| == d.size
    requires forall s: nat | s < d.size :: ends[s] == StartOf(d, entries, s + 1)
    requires forall s: nat | s < d.size :: bloom[s] == Tags(d, entries, s)
    ensures ptrs == ends && Built(d, entries, ends, bloom, tuples)
  {
    forall s: nat | s < d.size ensures SlotHolds(d, entries, tuples, s) && ptrs[s] == ends[s] {
      assert SlotFilled(d, entries, entries, ptrs, tuples, s);
      assert StartOf(d, entries, s + 1) == StartOf(d, entries, s) + |Bucket(d, entries, s)|;
    }
  }

  // ---------- the table ----------

  class FlatUnchainedHashTable {
    var dir: Dir
    var directory: array<u32>  // one entry ahead: slot s ends at directory[s + 1]
    var bloom: array<bv16>
    var counts: array<u32>
    var writePtrs: array<u32>
    var tuples: array<Entry>

    ghost predicate Valid()
      reads this, directory, bloom, counts, writePtrs, tuples
    {
      && dir.Valid() && dir.size > 0
      && directory.Length == dir.size + 2 && bloom.Length == counts.Length == writePtrs.Length == dir.size
      && directory != counts && directory != writePtrs && counts != writePtrs
      && (bloom as object) !in {directory as object, counts, writePtrs, tuples}
      && (tuples as object) !in {directory as object, counts, writePtrs}
      && directory[0] == 0
    }

    /** The table holds `entries`. */
    ghost predicate Holds(entries: seq<Entry>)
      reads this, directory, bloom, counts, writePtrs, tuples
    {
      Valid() && Built(dir, entries, directory[1..dir.size + 1], bloom[..], tuples[..])
    }

    ghost function Footprint(): set<object>
      reads this
    {
      {this, directory, bloom, counts, writePtrs, tuples}
    }

    constructor ()
      ensures Valid() && fresh(Footprint())
    {
      dir := Dir(54, 1024);
      directory, bloom := new u32[1026](_ => 0), new bv16[1024](_ => 0);
      counts, writePtrs, tuples := new u32[1024](_ => 0), new u32[1024](_ => 0), new Entry[0];
      new;
      DefaultDir();
      hide Pow2;
    }

    /** Choose the directory size for the expected number of tuples. */
    method Reserve(capacity: nat)
      requires Valid()
      modifies this
      ensures Valid() && fresh(Footprint() - old(Footprint())) && LeastSize(capacity, dir.size)
    {
      hide Pow2;
      var p, log := DirectorySize(capacity);
      if p != dir.size {
        var bits := Log2(p, log);
        dir := Dir(64 - bits, p);
        directory := new u32[p + 2](_ => 0);
        bloom := new bv16[p](_ => 0);
        counts, writePtrs := new u32[p](_ => 0), new u32[p](_ => 0);
      }
    }

    /** Zero directory, Bloom words and counters. */
    method Clear()
      requires Valid()
      modifies directory, bloom, counts
      ensures Valid()
      ensures forall t | 0 <= t <= dir.size :: directory[t] == 0
      ensures forall s | 0 <= s < dir.size :: bloom[s] == 0 && counts[s] == 0
    {
      hide Pow2;
      forall t | 1 <= t <= dir.size { directory[t] := 0; }
      forall s | 0 <= s < dir.size { bloom[s] := 0; }
      forall s | 0 <= s < dir.size { counts[s] := 0; }
    }

    /** First pass over one tuple: its slot's counter and Bloom word. */
    method CountTuple(key: i32, ghost e: Entry, ghost prefix: seq<Entry>)
      requires Valid() && e.key == key && |prefix| < 0xffff_ffff
      requires Counted(dir, prefix, counts[..], bloom[..])
      modifies bloom, counts
      ensures Valid() && Counted(dir, prefix + [e], counts[..], bloom[..])
    {
      CountStep(dir, prefix, e, counts[..], bloom[..]);
      hide Counted, Hash, Tag, AddTag, Dir.SlotOf, Dir.Valid, Pow2;
      SlotBound(dir, key);
      ghost var countsBefore, bloomBefore := counts[..], bloom[..];
      var h := Hash(key);
      var slot := dir.SlotOf(key);
      counts[slot] := counts[slot] + 1;
      bloom[slot] := AddTag(bloom[slot], Tag(h));
      assert counts[..] == countsBefore[slot := countsBefore[slot] + 1];
      assert bloom[..] == bloomBefore[slot := AddTag(bloomBefore[slot], Tag(h))];
    }

    /** Prefix sums: the END of every slot. */
    method PrefixSums(ghost entries: seq<Entry>) returns (cumulative: u32)
      requires Valid() && Counted(dir, entries, counts[..], bloom[..]) && |entries| < 0x1_0000_0000
      modifies directory
      ensures Valid() && cumulative == |entries|
      ensures forall t: nat | t <= dir.size :: directory[t] == StartOf(dir, entries, t)
    {
      hide Bucket, Tags, Pow2, StartOf, Counted;
      cumulative := 0;
      StartTotal(dir, entries);
      StartZero(dir, entries);
      for i := 0 to dir.size
        invariant Valid() && cumulative == StartOf(dir, entries, i)
        invariant forall t: nat | t <= i :: directory[t] == StartOf(dir, entries, t)
      {
        StartMonotone(dir, entries, i + 1, dir.size);
        NextStart(dir, entries, counts[..], bloom[..], i);
        cumulative := cumulative + counts[i];
        directory[i + 1] := cumulative;
      }
    }

    /** Every slot starts where the previous one ends. */
    method InitWritePtrs(ghost entries: seq<Entry>)
      requires Valid()
      requires forall t: nat | t <= dir.size :: directory[t] == StartOf(dir, entries, t)
      modifies writePtrs
      ensures Valid()
      ensures forall s: nat | s < dir.size :: writePtrs[s] == StartOf(dir, entries, s)
    {
      hide Pow2, StartOf;
      writePtrs[0] := 0;
      for i := 1 to dir.size
        invariant forall s: nat | s < i :: writePtrs[s] == StartOf(dir, entries, s)
      {
        writePtrs[i] := directory[i];
      }
    }

    /** Second pass over one tuple: write it behind its slot's earlier ones. */
    method ScatterTuple(key: i32, row: u32, ghost prefix: seq<Entry>, ghost entries: seq<Entry>)
      requires Valid() && prefix + [Entry(key, row)] <= entries && |entries| < 0x1_0000_0000
      requires Scattered(dir, prefix, entries, writePtrs[..], tuples[..])
      modifies writePtrs, tuples
      ensures Valid() && Scattered(dir, prefix + [Entry(key, row)], entries, writePtrs[..], tuples[..])
    {
      ScatterStep(dir, prefix, Entry(key, row), entries, writePtrs[..], tuples[..]);
      hide Scattered, Hash, Dir.SlotOf, Dir.Valid, Pow2;
      SlotBound(dir, key);
      ghost var ptrsBefore, tuplesBefore := writePtrs[..], tuples[..];
      var slot := dir.SlotOf(key);
      var pos := writePtrs[slot];
      writePtrs[slot] := writePtrs[slot] + 1;
      tuples[pos] := Entry(key, row);
      assert writePtrs[..] == ptrsBefore[slot := ptrsBefore[slot] + 1];
      assert tuples[..] == tuplesBefore[pos := Entry(key, row)];
    }

    /** Prefix sums, tuple storage and write pointers, between the two passes. */
    method Lay(ghost entries: seq<Entry>)
      requires Valid() && Counted(dir, entries, counts[..], bloom[..]) && |entries| < 0x1_0000_0000
      modifies this`tuples, directory, writePtrs
      ensures Valid() && fresh(tuples) && bloom[..] == old(bloom[..])
      ensures Scattered(dir, [], entries, writePtrs[..], tuples[..])
      ensures EndsLaid(dir, entries, directory[..])
    {
      hide Pow2, StartOf, Counted, Scattered;
      var cumulative := PrefixSums(entries);
      tuples := new Entry[cumulative];
      InitWritePtrs(entries);
      NothingScattered(dir, entries, writePtrs[..], tuples[..]);
    }

    /** Both passes done. */
    lemma {:induction false} Complete(entries: seq<Entry>)
      requires Valid() && EndsLaid(dir, entries, directory[..])
      requires Scattered(dir, entries, entries, writePtrs[..], tuples[..])
      requires forall s: nat | s < dir.size :: bloom[..][s] == Tags(dir, entries, s)
      ensures Holds(entries) && writePtrs[..] == directory[1..dir.size + 1]
    {
      hide Pow2, StartOf, Scattered, Built, Tags;
      ScatterDone(dir, entries, directory[1..dir.size + 1], bloom[..], writePtrs[..], tuples[..]);
    }

    method BuildFromEntries(entries: seq<Entry>)
      requires Valid() && |entries| < 0x1_0000_0000
      modifies this`tuples, directory, bloom, counts, writePtrs
      ensures Holds(entries) && fresh(tuples)
    {
      hide Pow2, Counted, Scattered, EndsLaid, Built;
      Clear();
      if entries == [] {
        tuples := new Entry[0];
        BuiltEmpty(dir, directory[1..dir.size + 1], bloom[..]);
        assert tuples[..] == [];
        return;
      }
      NothingCounted(dir, counts[..], bloom[..]);
      for i := 0 to |entries|
        modifies bloom, counts
        invariant Valid() && Counted(dir, entries[..i], counts[..], bloom[..])
      {
        assert entries[..i + 1] == entries[..i] + [entries[i]];
        CountTuple(entries[i].key, entries[i], entries[..i]);
      }
      assert entries[..|entries|] == entries;
      CountedTags(dir, entries, counts[..], bloom[..]);
      Lay(entries);
      ghost var words := bloom[..];
      for i := 0 to |entries|
        modifies writePtrs, tuples
        invariant Valid() && Scattered(dir, entries[..i], entries, writePtrs[..], tuples[..])
        invariant bloom[..] == words && EndsLaid(dir, entries, directory[..])
      {
        assert entries[..i + 1] == entries[..i] + [entries[i]];
        ScatterTuple(entries[i].key, entries[i].row, entries[..i], entries);
      }
      Complete(entries);
    }

    /** Build straight from INT32 pages without NULLs: row `i` of the column becomes entry `i`. */
    method BuildFromPages(pages: seq<Page>, offs: seq<nat>, numRows: nat)
      requires Valid() && IsIndex(offs, pages) && NoNulls(DecodeInt(pages))
      requires numRows == |DecodeInt(pages)| < 0x1_0000_0000
      modifies this`tuples, directory, bloom, counts, writePtrs
      ensures Holds(Indexed(DecodeInt(pages))) && fresh(tuples)
    {
      hide Pow2, Counted, Scattered, EndsLaid, Built, DecodeInt, IsIndex, NoNulls, ReadI32;
      ghost var entries := Indexed(DecodeInt(pages));
      Clear();
      IndexShape(offs, pages);
      if numRows == 0 || |offs| < 2 {
        tuples := new Entry[0];
        BuiltEmpty(dir, directory[1..dir.size + 1], bloom[..]);
        assert tuples[..] == [] && entries == [];
        return;
      }
      NothingCounted(dir, counts[..], bloom[..]);
      assert entries[..0] == [];
      for k := 0 to |offs| - 1
        modifies bloom, counts
        invariant offs[k] <= |entries|
        invariant Valid() && Counted(dir, entries[..offs[k]], counts[..], bloom[..])
      {
        IndexStep(offs, pages, k);
        var base, n := offs[k], offs[k + 1] - offs[k];
        for i := 0 to n
          modifies bloom, counts
          invariant Valid() && Counted(dir, entries[..base + i], counts[..], bloom[..])
        {
          IndexedRow(offs, pages, k, i);
          assert entries[..base + i + 1] == entries[..base + i] + [entries[base + i]];
          CountTuple(ReadI32(pages[k], INT_DATA + 4 * i), entries[base + i], entries[..base + i]);
        }
      }
      assert entries[..|entries|] == entries;
      CountedTags(dir, entries, counts[..], bloom[..]);
      Lay(entries);
      ghost var words := bloom[..];
      for k := 0 to |offs| - 1
        modifies writePtrs, tuples
        invariant offs[k] <= |entries|
        invariant Valid() && Scattered(dir, entries[..offs[k]], entries, writePtrs[..], tuples[..])
        invariant bloom[..] == words && EndsLaid(dir, entries, directory[..])
      {
        IndexStep(offs, pages, k);
        var base, n := offs[k], offs[k + 1] - offs[k];
        for i := 0 to n
          modifies writePtrs, tuples
          invariant Valid() && Scattered(dir, entries[..base + i], entries, writePtrs[..], tuples[..])
          invariant bloom[..] == words && EndsLaid(dir, entries, directory[..])
        {
          IndexedRow(offs, pages, k, i);
          assert entries[..base + i + 1] == entries[..base + i] + [entries[base + i]];
          ScatterTuple(ReadI32(pages[k], INT_DATA + 4 * i), base + i, entries[..base + i], entries);
        }
      }
      Complete(entries);
    }

    /** The candidates for a key: the whole slot, or nothing when the Bloom word rules the key out. */
    method Probe(key: i32, ghost entries: seq<Entry>) returns (begin: nat, len: nat)
      requires Holds(entries)
      ensures begin + len <= tuples.Length
      ensures Matching(tuples[begin..begin + len], key) == Matching(entries, key)
      ensures dir.SlotOf(key) < bloom.Length
      ensures var slot := dir.SlotOf(key);
        if MaybeContains(bloom[slot], Tag(Hash(key))) then tuples[begin..begin + len] == Bucket(dir, entries, slot)
        else len == 0
    {
      hide Pow2, Hash, Tag, MaybeContains, StartOf, Bucket, Tags, Dir.SlotOf;
      SlotBound(dir, key);
      var slot := dir.SlotOf(key);
      BloomKeeps(dir, entries, key);
      MatchingInBucket(dir, entries, key);
      SlotEnds(dir, entries, directory[1..dir.size + 1], bloom[..], tuples[..], slot);
      if !MaybeContains(bloom[slot], Tag(Hash(key))) {
        return 0, 0;
      }
      begin := if slot == 0 then 0 else directory[slot];
      len := directory[slot + 1] - begin;
    }
  }

  lemma NextStart(d: Dir, entries: seq<Entry>, counts: seq<u32>, bloom: seq<bv16>, s: nat)
    requires Counted(d, entries, counts, bloom) && s < d.size
    ensures StartOf(d, entries, s + 1) == StartOf(d, entries, s) + counts[s]
  {
  }

  ghost predicate EndsLaid(d: Dir, entries: seq<Entry>, directory: seq<u32>) {
    d.size > 0 && |directory| > d.size && forall t: nat | t <= d.size :: directory[t] == StartOf(d, entries, t)
  }

  lemma BuiltEmpty(d: Dir, ends: seq<u32>, bloom: seq<bv16>)
    requires d.size > 0 && |ends| == |bloom| == d.size
    requires forall s | 0 <= s < d.size :: ends[s] == 0 && bloom[s] == 0
    ensures Built(d, [], ends, bloom, [])
  {
    forall s: nat | s < d.size ensures ends[s] == StartOf(d, [], s + 1) && SlotHolds(d, [], [], s) {
      StartEmpty(d, s);
      StartEmpty(d, s + 1);
    }
  }

  lemma {:induction false} CountedTags(d: Dir, entries: seq<Entry>, counts: seq<u32>, bloom: seq<bv16>)
    requires Counted(d, entries, counts, bloom)
    ensures forall s: nat | s < d.size :: bloom[s] == Tags(d, entries, s)
  {
  }

  lemma SlotEnds(d: Dir, entries: seq<Entry>, ends: seq<u32>, bloom: seq<bv16>, tuples: seq<Entry>, s: nat)
    requires Built(d, entries, ends, bloom, tuples) && s < d.size
    ensures ends[s] == StartOf(d, entries, s + 1) <= |tuples| && bloom[s] == Tags(d, entries, s)
    ensures StartOf(d, entries, s) == if s == 0 then 0 else ends[s - 1]
    ensures StartOf(d, entries, s) <= ends[s]
    ensures tuples[StartOf(d, entries, s)..ends[s]] == Bucket(d, entries, s)
  {
    assert SlotHolds(d, entries, tuples, s);
    StartZero(d, entries);
  }

  /** The entries of a NULL-free column. */
  function Indexed(rows: seq<IntRow>): (es: seq<Entry>)
    requires |rows| <= 0x1_0000_0000
    ensures |es| == |rows|
  {
    seq(|rows|, i requires 0 <= i < |rows| => Entry(rows[i].Get(0), i))
  }

  lemma {:induction false} IndexShape(offs: seq<nat>, pages: seq<Page>)
    requires IsIndex(offs, pages)
    ensures |offs| == |pages| + 1 && offs[0] == 0 && offs[|offs| - 1] == |DecodeInt(pages)|
  {
    IndexTotal(offs, pages);
  }

  lemma {:induction false} IndexStep(offs: seq<nat>, pages: seq<Page>, k: nat)
    requires IsIndex(offs, pages) && k < |pages|
    ensures offs[k] <= offs[k + 1] <= |DecodeInt(pages)|
  {
    IndexCounts(pages, k + 1);
  }

  lemma {:induction false} IndexedRow(offs: seq<nat>, pages: seq<Page>, k: nat, i: nat)
    requires IsIndex(offs, pages) && NoNulls(DecodeInt(pages)) && |DecodeInt(pages)| <= 0x1_0000_0000
    requires k < |pages| && i < offs[k + 1] - offs[k]
    ensures offs[k] + i < |DecodeInt(pages)|
    ensures Indexed(DecodeInt(pages))[offs[k] + i] == Entry(ReadI32(pages[k], INT_DATA + 4 * i), offs[k] + i)
  {
    hide ReadI32, DecodeInt;
    DirectRead(offs, pages, k, offs[k] + i);
  }

  lemma SlotBound(d: Dir, k: i32)
    requires d.size > 0
    ensures d.SlotOf(k) < d.size
  {
  }

  lemma DefaultDir()
    ensures Dir(54, 1024).Valid()
  {
    Pow2Const();
  }

  /** Within its bounds, the directory has a slot for every eight tuples; half of it would not. */
  predicate LeastSize(capacity: nat, size: nat) {
    && 1024 <= size <= 262144
    && (size < 262144 ==> size >= capacity / 8) && (size > 1024 ==> size / 2 < capacity / 8)
  }

  /** A power of two between 2^10 and 2^18, about one slot for eight tuples. */
  method DirectorySize(capacity: nat) returns (p: nat, ghost log: nat)
    ensures p == Pow2(log) && 10 <= log <= 18 && LeastSize(capacity, p)
  {
    hide LeastSize;
    Pow2Const();
    var desired := capacity / 8;
    if desired < 1024 { desired := 1024; }
    p, log := NextPow2(desired);
    ghost var upper := log;
    assert Pow2(11) == 2 * Pow2(10);
    if p > 262144 { p, log := 262144, 18; }
    hide Pow2;
    Pow2Order(11, upper);
    Pow2Order(18, upper);
    Pow2Order(10, log);
    Pow2Order(log, 18);
    LeastSizeOf(capacity, desired, Pow2(upper));
  }

  lemma LeastSizeOf(capacity: nat, desired: nat, p: nat)
    requires desired == if capacity / 8 < 1024 then 1024 else capacity / 8
    requires p >= desired && p / 2 < desired && (p <= 1024 || p >= 2048)
    ensures LeastSize(capacity, if p > 262144 then 262144 else p)
  {
  }

  lemma {:induction false} Pow2Order(a: nat, b: nat)
    ensures Pow2(a) <= Pow2(b) <==> a <= b
  {
    if a < b { Pow2Less(a, b); } else if b < a { Pow2Less(b, a); }
  }

  lemma {:induction false} Pow2Less(a: nat, b: nat)
    requires a < b
    ensures Pow2(a) < Pow2(b)
  {
    if a + 1 < b { Pow2Less(a, b - 1); }
  }

  /** The least power of two not below `v`. */
  method NextPow2(v: nat) returns (p: nat, ghost log: nat)
    ensures p == Pow2(log) && p >= v && (p > 1 ==> p / 2 < v)
  {
    p, log := 1, 0;
    while p < v
      invariant p == Pow2(log) && (p > 1 ==> p / 2 < v)
      decreases v - p
    {
      p, log := 2 * p, log + 1;
    }
  }

  method Log2(size: nat, ghost log: nat) returns (bits: nat)
    requires size == Pow2(log)
    ensures bits == log
  {
    bits := 0;
    var tmp := size;
    while tmp > 1
      invariant bits <= log && tmp == Pow2(log - bits)
    {
      bits, tmp := bits + 1, tmp / 2;
    }
  }
}
