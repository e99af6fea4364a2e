/** The INT32 hash join: build, probe by work-stealing threads, materialise. */
module Join {
  import opened Bags
  import opened Bytes
  import opened IntPages
  import opened LateMaterialization
  import opened ColumnBuffers
  import opened Scan
  import opened Unchained
  import opened WorkStealing

  /** Row indices of a joined pair. */
  type Pair = (u32, u32)

  type Key = Option<i32>

  // ---------- the keys a join sees ----------

  /** Keys of a payload column; in-place columns are read without a NULL test. */
  ghost function Keys(c: ColumnT): seq<Key>
    reads c`pages, c`srcColumn, c`isZeroCopy, c`numValues
  {
    if c.isZeroCopy && c.srcColumn.Some? then DecodeInt(c.srcColumn.value) else Mapped(IntOfRaw, c.View())
  }

  lemma KeyCount(c: ColumnT)
    requires c.Valid()
    ensures |Keys(c)| == c.numValues
  {
  }

  /** The build entries: every non-NULL key with its row. */
  function KeyEntries(keys: seq<Key>): (es: seq<Entry>)
    requires |keys| <= 0x1_0000_0000
    ensures |es| <= |keys|
  {
    if keys == [] then [] else
      var n := |keys| - 1;
      KeyEntries(keys[..n]) + if keys[n].Some? then [Entry(keys[n].value, n)] else []
  }

  lemma {:induction false} KeyEntriesSnoc(keys: seq<Key>, k: Key)
    requires |keys| < 0x1_0000_0000
    ensures KeyEntries(keys + [k]) == if k.Some? then KeyEntries(keys) + [Entry(k.value, |keys|)] else KeyEntries(keys)
  {
    assert (keys + [k])[..|keys|] == keys;
  }

  lemma {:induction false} DenseEntries(keys: seq<Key>)
    requires |keys| <= 0x1_0000_0000 && NoNulls(keys)
    ensures KeyEntries(keys) == Indexed(keys)
  {
    if keys != [] {
      var n := |keys| - 1;
      NoNullsPrefix(keys[..n], keys);
      DenseEntries(keys[..n]);
      assert keys[n].Some?;
      assert Indexed(keys) == Indexed(keys[..n]) + [Entry(keys[n].value, n)];
    }
  }

  // ---------- the pairs of a probe row ----------

  function PairsOf(matches: seq<Entry>, j: u32, buildLeft: bool): (ps: seq<Pair>)
    ensures |ps| == |matches|
  {
    seq(|matches|, i requires 0 <= i < |matches| => if buildLeft then (matches[i].row, j) else (j, matches[i].row))
  }

  function RowPairs(entries: seq<Entry>, keys: seq<Key>, j: nat, buildLeft: bool): seq<Pair>
    requires j < |keys| <= 0x1_0000_0000
  {
    if keys[j].None? then [] else PairsOf(Matching(entries, keys[j].value), j, buildLeft)
  }

  /** The pairs of probe rows `lo..hi`, in probe order. */
  function RangePairs(entries: seq<Entry>, keys: seq<Key>, lo: nat, hi: nat, buildLeft: bool): seq<Pair>
    requires lo <= hi <= |keys| <= 0x1_0000_0000
    decreases hi - lo
  {
    if lo == hi then [] else
      RowPairs(entries, keys, lo, buildLeft) + RangePairs(entries, keys, lo + 1, hi, buildLeft)
  }

  lemma {:induction false} RangeSplit(entries: seq<Entry>, keys: seq<Key>, lo: nat, mid: nat, hi: nat, buildLeft: bool)
    requires lo <= mid <= hi <= |keys| <= 0x1_0000_0000
    ensures RangePairs(entries, keys, lo, hi, buildLeft) ==
      RangePairs(entries, keys, lo, mid, buildLeft) + RangePairs(entries, keys, mid, hi, buildLeft)
    decreases mid - lo
  {
    hide RowPairs;
    if lo < mid {
      RangeSplit(entries, keys, lo + 1, mid, hi, buildLeft);
    } else {
      assert RangePairs(entries, keys, lo, mid, buildLeft) == [];
    }
  }

  /** The join of two key columns as one thread produces it. */
  function JoinPairs(left: seq<Key>, right: seq<Key>, buildLeft: bool): seq<Pair>
    requires |left| <= 0x1_0000_0000 && |right| <= 0x1_0000_0000
  {
    if buildLeft then RangePairs(KeyEntries(left), right, 0, |right|, true)
    else RangePairs(KeyEntries(right), left, 0, |left|, false)
  }

  // ---------- the nested-loop meaning of the join ----------

  predicate Joins(left: seq<Key>, right: seq<Key>, p: Pair) {
    p.0 < |left| && p.1 < |right| && left[p.0].Some? && left[p.0] == right[p.1]
  }

  lemma CountSnoc<T>(xs: seq<T>, x: T, y: T)
    ensures multiset(xs + [x])[y] == multiset(xs)[y] + if x == y then 1 else 0
  {
  }

  lemma {:induction false} MatchingCount(keys: seq<Key>, k: i32, e: Entry)
    requires |keys| <= 0x1_0000_0000
    ensures multiset(Matching(KeyEntries(keys), k))[e] ==
      if e.key == k && e.row < |keys| && keys[e.row] == Some(k) then 1 else 0
  {
    if keys != [] {
      hide KeyEntries, Matching;
      var n := |keys| - 1;
      var shorter := keys[..n];
      MatchingCount(shorter, k, e);
      assert e.row < n ==> keys[e.row] == shorter[e.row];
      assert keys == shorter + [keys[n]];
      KeyEntriesSnoc(shorter, keys[n]);
      if keys[n].Some? {
        var last := Entry(keys[n].value, n);
        MatchingSnoc(KeyEntries(shorter), last, k);
        CountSnoc(Matching(KeyEntries(shorter), k), last, e);
      }
    }
  }

  lemma {:induction false} PairsCount(matches: seq<Entry>, k: i32, j: u32, buildLeft: bool, p: Pair)
    requires forall e | e in matches :: e.key == k
    ensures multiset(PairsOf(matches, j, buildLeft))[p] ==
      if (if buildLeft then p.1 else p.0) == j then multiset(matches)[Entry(k, if buildLeft then p.0 else p.1)] else 0
  {
    if matches != [] {
      var n := |matches| - 1;
      PairsCount(matches[..n], k, j, buildLeft, p);
      assert matches == matches[..n] + [matches[n]];
      var last := if buildLeft then (matches[n].row, j) else (j, matches[n].row);
      assert PairsOf(matches, j, buildLeft) == PairsOf(matches[..n], j, buildLeft) + [last];
      assert matches[n] == Entry(k, matches[n].row);
    }
  }

  /** Build keys `build`, probe keys `probe`: a pair occurs once when it joins and lies in the range, else never. */
  lemma {:induction false} RangeCount(build: seq<Key>, probe: seq<Key>, lo: nat, hi: nat, buildLeft: bool, p: Pair)
    requires |build| <= 0x1_0000_0000 && lo <= hi <= |probe| <= 0x1_0000_0000
    ensures var (b, q) := if buildLeft then (p.0, p.1) else (p.1, p.0);
      multiset(RangePairs(KeyEntries(build), probe, lo, hi, buildLeft))[p] ==
        if lo <= q < hi && b < |build| && probe[q].Some? && build[b] == probe[q] then 1 else 0
    decreases hi - lo
  {
    hide *;
    RangeEmpty(KeyEntries(build), probe, lo, buildLeft);
    if lo < hi {
      RangeCount(build, probe, lo + 1, hi, buildLeft, p);
      RowCount(build, probe, lo, buildLeft, p);
      RangeFirst(KeyEntries(build), probe, lo, hi, buildLeft);
    }
  }

  lemma {:induction false} RowCount(build: seq<Key>, probe: seq<Key>, j: nat, buildLeft: bool, p: Pair)
    requires |build| <= 0x1_0000_0000 && j < |probe| <= 0x1_0000_0000
    ensures var (b, q) := if buildLeft then (p.0, p.1) else (p.1, p.0);
      multiset(RowPairs(KeyEntries(build), probe, j, buildLeft))[p] ==
        if q == j && b < |build| && probe[q].Some? && build[b] == probe[q] then 1 else 0
  {
    hide KeyEntries, Matching, PairsOf;
    if probe[j].Some? {
      var k := probe[j].value;
      MatchingCount(build, k, Entry(k, if buildLeft then p.0 else p.1));
      PairsCount(Matching(KeyEntries(build), k), k, j, buildLeft, p);
    }
  }

  lemma RangeFirst(entries: seq<Entry>, keys: seq<Key>, lo: nat, hi: nat, buildLeft: bool)
    requires lo < hi <= |keys| <= 0x1_0000_0000
    ensures RangePairs(entries, keys, lo, hi, buildLeft) ==
      RowPairs(entries, keys, lo, buildLeft) + RangePairs(entries, keys, lo + 1, hi, buildLeft)
  {
  }

  lemma {:induction false} RangeEmpty(entries: seq<Entry>, keys: seq<Key>, lo: nat, buildLeft: bool)
    requires lo <= |keys| <= 0x1_0000_0000
    ensures RangePairs(entries, keys, lo, lo, buildLeft) == []
  {
  }

  /** Every pair of rows with equal non-NULL keys exactly once, and nothing else, whichever side is built. */
  lemma JoinCount(left: seq<Key>, right: seq<Key>, buildLeft: bool, p: Pair)
    requires |left| <= 0x1_0000_0000 && |right| <= 0x1_0000_0000
    ensures multiset(JoinPairs(left, right, buildLeft))[p] == if Joins(left, right, p) then 1 else 0
  {
    if buildLeft {
      RangeCount(left, right, 0, |right|, true, p);
    } else {
      RangeCount(right, left, 0, |left|, false, p);
    }
  }

  // ---------- probing one row ----------

  lemma PairsOfSnoc(matches: seq<Entry>, e: Entry, j: u32, buildLeft: bool)
    ensures PairsOf(matches + [e], j, buildLeft) ==
      PairsOf(matches, j, buildLeft) + [if buildLeft then (e.row, j) else (j, e.row)]
  {
  }

  /** Look a key up and keep the candidates that really have it. */
  method LookupPairs(table: FlatUnchainedHashTable, ghost entries: seq<Entry>, key: i32, j: u32, buildLeft: bool)
    returns (ps: seq<Pair>)
    requires table.Holds(entries)
    ensures ps == PairsOf(Matching(entries, key), j, buildLeft)
  {
    hide FlatUnchainedHashTable.Holds, Matching;
    ps := [];
    var begin, len := table.Probe(key, entries);
    ghost var bucket := table.tuples[begin..begin + len];
    NoMatch(key);
    for x := 0 to len
      invariant ps == PairsOf(Matching(bucket[..x], key), j, buildLeft)
    {
      var e := table.tuples[begin + x];
      assert bucket[..x + 1] == bucket[..x] + [e];
      MatchingSnoc(bucket[..x], e, key);
      if e.key == key {
        PairsOfSnoc(Matching(bucket[..x], key), e, j, buildLeft);
        ps := ps + [if buildLeft then (e.row, j) else (j, e.row)];
      }
    }
    assert bucket[..len] == bucket;
  }

  lemma {:induction false} NoMatch(key: i32)
    ensures Matching([], key) == []
  {
  }

  /** The probe column is scanned page by page. */
  predicate UsesCursor(c: ColumnT)
    reads c`isZeroCopy, c`srcColumn, c`pageOffsets
  {
    c.isZeroCopy && c.srcColumn.Some? && |c.pageOffsets| >= 2
  }

  /** The forward cursor stands on or before row `j`'s page. */
  ghost predicate CursorAt(c: ColumnT, page: nat, j: nat)
    reads c`isZeroCopy, c`srcColumn, c`pageOffsets
  {
    UsesCursor(c) ==> page + 1 < |c.pageOffsets| && c.pageOffsets[page] <= j
  }

  /** Where the cursor starts for a block beginning at row `begin`. */
  method LocatePage(c: ColumnT, begin: nat) returns (page: nat)
    requires c.Valid() && begin < c.numValues
    ensures CursorAt(c, page, begin)
  {
    page := 0;
    if UsesCursor(c) {
      IndexTotal(c.pageOffsets, c.srcColumn.value);
      if begin >= c.pageOffsets[1] {
        page := FindPage(c.pageOffsets, begin);
      }
    }
  }

  method ProbeRow(table: FlatUnchainedHashTable, ghost entries: seq<Entry>, c: ColumnT, j: nat, page0: nat,
                  buildLeft: bool)
    returns (ps: seq<Pair>, page: nat)
    requires table.Holds(entries) && c.Valid()
    requires j < c.numValues <= 0x1_0000_0000 && CursorAt(c, page0, j) && |Keys(c)| == c.numValues
    ensures ps == RowPairs(entries, Keys(c), j, buildLeft) && CursorAt(c, page, j)
  {
    hide FlatUnchainedHashTable.Holds, PairsOf, Matching, ReadI32, DecodeInt, NoNulls;
    page := page0;
    if UsesCursor(c) {
      var offs, pages := c.pageOffsets, c.srcColumn.value;
      IndexTotal(offs, pages);
      while j >= offs[page + 1]
        invariant page + 1 < |offs| && offs[page] <= j
        decreases |offs| - page
      {
        page := page + 1;
      }
      DirectRead(offs, pages, page, j);
      ps := LookupPairs(table, entries, ReadI32(pages[page], INT_DATA + 4 * (j - offs[page])), j, buildLeft);
    } else {
      NotInPlace(c);
      PackedCell(c.pages, c.numValues, j);
      var v := c.pages[j / VALUES_PER_PAGE][j % VALUES_PER_PAGE];
      if v == NULL_RAW {
        ps := [];
      } else {
        ps := LookupPairs(table, entries, AsI32(v), j, buildLeft);
      }
    }
  }

  /** A valid column with rows that has no usable page index is materialised. */
  lemma NotInPlace(c: ColumnT)
    requires c.Valid() && !UsesCursor(c) && c.numValues > 0
    ensures !c.isZeroCopy
  {
    if c.isZeroCopy {
      IndexTotal(c.pageOffsets, c.srcColumn.value);
    }
  }

  // ---------- the probe phase: any number of threads, any interleaving ----------

  /** A worker is about to steal, inside a block at row `j` with its page cursor, or finished. */
  datatype Worker = Ready | Busy(j: nat, end: nat, page: nat) | Finished

  function Rank(w: Worker): nat {
    match w
    case Ready => 1
    case Busy(j, end, _) => 2 + if j <= end then end - j else 0
    case Finished => 0
  }

  function Ranks(workers: seq<Worker>): nat {
    if workers == [] then 0 else Ranks(workers[..|workers| - 1]) + Rank(workers[|workers| - 1])
  }

  lemma RanksUpdate(workers: seq<Worker>, t: nat, w: Worker)
    requires t < |workers|
    ensures Ranks(workers[t := w]) + Rank(workers[t]) == Ranks(workers) + Rank(w)
  {
    var n := |workers| - 1;
    if t < n {
      RanksUpdate(workers[..n], t, w);
      assert workers[t := w][..n] == workers[..n][t := w];
    } else {
      assert workers[t := w][..n] == workers[..n];
    }
  }

  /** What a worker has produced and what its block still owes. */
  ghost function Share(entries: seq<Entry>, keys: seq<Key>, buildLeft: bool, w: Worker, out: seq<Pair>): multiset<Pair>
    requires |keys| <= 0x1_0000_0000
  {
    multiset(out) +
    if w.Busy? && w.j <= w.end <= |keys| then multiset(RangePairs(entries, keys, w.j, w.end, buildLeft)) else multiset{}
  }

  ghost function Shares(entries: seq<Entry>, keys: seq<Key>, buildLeft: bool, workers: seq<Worker>,
                        outs: seq<seq<Pair>>)
    : multiset<Pair>
    requires |keys| <= 0x1_0000_0000 && |workers| == |outs|
  {
    if workers == [] then multiset{} else
      var n := |workers| - 1;
      Shares(entries, keys, buildLeft, workers[..n], outs[..n]) + Share(entries, keys, buildLeft, workers[n], outs[n])
  }

  lemma {:induction false} SharesUpdate(entries: seq<Entry>, keys: seq<Key>, buildLeft: bool, workers: seq<Worker>,
                                        outs: seq<seq<Pair>>, t: nat, w: Worker, out: seq<Pair>)
    requires |keys| <= 0x1_0000_0000 && |workers| == |outs| && t < |workers|
    ensures Shares(entries, keys, buildLeft, workers[t := w], outs[t := out])
      + Share(entries, keys, buildLeft, workers[t], outs[t])
         == Shares(entries, keys, buildLeft, workers, outs) + Share(entries, keys, buildLeft, w, out)
  {
    hide Share;
    var n := |workers| - 1;
    var workers', outs' := workers[t := w], outs[t := out];
    assert workers'[..n] == if t < n then workers[..n][t := w] else workers[..n];
    assert outs'[..n] == if t < n then outs[..n][t := out] else outs[..n];
    if t < n {
      SharesUpdate(entries, keys, buildLeft, workers[..n], outs[..n], t, w, out);
      assert Shares(entries, keys, buildLeft, workers', outs') ==
        Shares(entries, keys, buildLeft, workers'[..n], outs'[..n])
          + Share(entries, keys, buildLeft, workers[n], outs[n]);
      AddBoth(Shares(entries, keys, buildLeft, workers'[..n], outs'[..n]),
              Share(entries, keys, buildLeft, workers[t], outs[t]),
              Shares(entries, keys, buildLeft, workers[..n], outs[..n]), Share(entries, keys, buildLeft, w, out),
              Share(entries, keys, buildLeft, workers[n], outs[n]));
    }
  }

  function Flat<T>(outs: seq<seq<T>>): seq<T> {
    if outs == [] then [] else Flat(outs[..|outs| - 1]) + outs[|outs| - 1]
  }

  /** With every worker finished nothing is owed. */
  lemma {:induction false} SharesFinished(entries: seq<Entry>, keys: seq<Key>, buildLeft: bool, workers: seq<Worker>,
                                          outs: seq<seq<Pair>>)
    requires |keys| <= 0x1_0000_0000 && |workers| == |outs|
    requires forall t | 0 <= t < |workers| :: workers[t].Finished?
    ensures Shares(entries, keys, buildLeft, workers, outs) == multiset(Flat(outs))
  {
    if workers != [] {
      SharesFinished(entries, keys, buildLeft, workers[..|workers| - 1], outs[..|outs| - 1]);
    }
  }

  lemma {:induction false} SharesStart(entries: seq<Entry>, keys: seq<Key>, buildLeft: bool, n: nat)
    requires |keys| <= 0x1_0000_0000
    ensures Shares(entries, keys, buildLeft, seq(n, _ => Ready), seq(n, _ => [])) == multiset{}
  {
    if n > 0 {
      SharesStart(entries, keys, buildLeft, n - 1);
      assert seq(n, _ => Worker.Ready)[..n - 1] == seq(n - 1, _ => Worker.Ready);
      var none: seq<Pair> := [];
      assert seq(n, _ => none)[..n - 1] == seq(n - 1, _ => none);
    }
  }

  /** The state of the probe phase between two atomic steps. */
  ghost predicate ProbeState(entries: seq<Entry>, keys: seq<Key>, buildLeft: bool, counter: nat,
                             workers: seq<Worker>, outs: seq<seq<Pair>>) {
    && |keys| <= 0x1_0000_0000 && |workers| == |outs|
    && (forall t | 0 <= t < |workers| :: WorkerFits(|keys|, counter, workers[t]))
    && Shares(entries, keys, buildLeft, workers, outs) ==
         multiset(RangePairs(entries, keys, 0, Min(|keys|, counter), buildLeft))
    && (|workers| == 1 ==> InOrder(entries, keys, buildLeft, workers[0], outs[0], Min(|keys|, counter)))
  }

  ghost predicate WorkerFits(n: nat, counter: nat, w: Worker) {
    match w
    case Ready => true
    case Busy(j, end, _) => j <= end <= n
    case Finished => counter >= n
  }

  /** A lone worker's output, followed by what its block still owes, is the claimed prefix in order. */
  ghost predicate InOrder(entries: seq<Entry>, keys: seq<Key>, buildLeft: bool, w: Worker, out: seq<Pair>, claimed: nat)
    requires |keys| <= 0x1_0000_0000 && claimed <= |keys|
  {
    out + (if w.Busy? && w.j <= w.end <= |keys| then RangePairs(entries, keys, w.j, w.end, buildLeft) else [])
      == RangePairs(entries, keys, 0, claimed, buildLeft)
  }

  lemma ProbeStart(entries: seq<Entry>, keys: seq<Key>, buildLeft: bool, n: nat)
    requires |keys| <= 0x1_0000_0000
    ensures ProbeState(entries, keys, buildLeft, 0, seq(n, _ => Ready), seq(n, _ => []))
  {
    hide RowPairs;
    SharesStart(entries, keys, buildLeft, n);
    RangeEmpty(entries, keys, 0, buildLeft);
  }

  /** Stealing a block: what is claimed grows by exactly what the worker now owes. */
  lemma StealStep(entries: seq<Entry>, keys: seq<Key>, buildLeft: bool, counter: nat, block: nat,
                  workers: seq<Worker>, outs: seq<seq<Pair>>, t: nat, page: nat)
    requires ProbeState(entries, keys, buildLeft, counter, workers, outs)
    requires t < |workers| && workers[t].Ready?
    ensures var w := if counter >= |keys| then Finished else Busy(counter, Min(|keys|, counter + block), page);
      ProbeState(entries, keys, buildLeft, counter + block, workers[t := w], outs)
  {
    hide Shares, RangePairs, Share;
    var n := |keys|;
    var w := if counter >= n then Finished else Busy(counter, Min(n, counter + block), page);
    StealShares(entries, keys, buildLeft, counter, block, workers, outs, t, w);
    if counter < n {
      RangeSplit(entries, keys, 0, counter, Min(n, counter + block), buildLeft);
    }
  }

  lemma StealShares(entries: seq<Entry>, keys: seq<Key>, buildLeft: bool, counter: nat, block: nat,
                    workers: seq<Worker>, outs: seq<seq<Pair>>, t: nat, w: Worker)
    requires |keys| <= 0x1_0000_0000 && |workers| == |outs| && t < |workers| && workers[t].Ready?
    requires if counter >= |keys| then w.Finished?
      else w.Busy? && w.j == counter && w.end == Min(|keys|, counter + block)
    requires Shares(entries, keys, buildLeft, workers, outs) ==
      multiset(RangePairs(entries, keys, 0, Min(|keys|, counter), buildLeft))
    ensures Shares(entries, keys, buildLeft, workers[t := w], outs) ==
      multiset(RangePairs(entries, keys, 0, Min(|keys|, counter + block), buildLeft))
  {
    hide Shares, RangePairs;
    var n := |keys|;
    var end := Min(n, counter + block);
    SharesUpdate(entries, keys, buildLeft, workers, outs, t, w, outs[t]);
    assert outs[t := outs[t]] == outs;
    if counter < n {
      RangeSplit(entries, keys, 0, counter, end, buildLeft);
    }
    var owed := if counter < n then multiset(RangePairs(entries, keys, counter, end, buildLeft)) else multiset{};
    Cancel(Shares(entries, keys, buildLeft, workers[t := w], outs),
           Share(entries, keys, buildLeft, workers[t], outs[t]),
           Shares(entries, keys, buildLeft, workers, outs), owed);
  }

  /** One row: its pairs move from owed to produced. */
  lemma RowStep(entries: seq<Entry>, keys: seq<Key>, buildLeft: bool, counter: nat,
                workers: seq<Worker>, outs: seq<seq<Pair>>, t: nat, page: nat)
    requires ProbeState(entries, keys, buildLeft, counter, workers, outs)
    requires t < |workers| && workers[t].Busy? && workers[t].j < workers[t].end <= |keys|
    ensures var (j, end) := (workers[t].j, workers[t].end);
      ProbeState(entries, keys, buildLeft, counter, workers[t := Busy(j + 1, end, page)],
                 outs[t := outs[t] + RowPairs(entries, keys, j, buildLeft)])
  {
    hide Shares, RangePairs, RowPairs;
    var j, end := workers[t].j, workers[t].end;
    var w, out := Busy(j + 1, end, page), outs[t] + RowPairs(entries, keys, j, buildLeft);
    SharesUpdate(entries, keys, buildLeft, workers, outs, t, w, out);
    RangeFirst(entries, keys, j, end, buildLeft);
    assert Share(entries, keys, buildLeft, w, out) == Share(entries, keys, buildLeft, workers[t], outs[t]);
    Cancel(Shares(entries, keys, buildLeft, workers[t := w], outs[t := out]), Share(entries, keys, buildLeft, w, out),
           Shares(entries, keys, buildLeft, workers, outs), multiset{});
    assert out + RangePairs(entries, keys, j + 1, end, buildLeft) ==
      outs[t] + RangePairs(entries, keys, j, end, buildLeft);
  }

  /** A block used up owes nothing. */
  lemma BlockStep(entries: seq<Entry>, keys: seq<Key>, buildLeft: bool, counter: nat,
                  workers: seq<Worker>, outs: seq<seq<Pair>>, t: nat)
    requires ProbeState(entries, keys, buildLeft, counter, workers, outs)
    requires t < |workers| && workers[t].Busy? && workers[t].j == workers[t].end
    ensures ProbeState(entries, keys, buildLeft, counter, workers[t := Ready], outs)
  {
    hide Shares, RangePairs, RowPairs;
    SharesUpdate(entries, keys, buildLeft, workers, outs, t, Ready, outs[t]);
    assert outs[t := outs[t]] == outs;
    RangeEmpty(entries, keys, workers[t].j, buildLeft);
    assert Share(entries, keys, buildLeft, Ready, outs[t]) == Share(entries, keys, buildLeft, workers[t], outs[t]);
    Cancel(Shares(entries, keys, buildLeft, workers[t := Ready], outs), Share(entries, keys, buildLeft, Ready, outs[t]),
           Shares(entries, keys, buildLeft, workers, outs), multiset{});
  }

  /** All workers finished: every probe row has been claimed and paid. */
  lemma {:induction false} ProbeEnd(entries: seq<Entry>, keys: seq<Key>, buildLeft: bool, counter: nat,
                 workers: seq<Worker>, outs: seq<seq<Pair>>)
    requires ProbeState(entries, keys, buildLeft, counter, workers, outs) && workers != []
    requires forall t | 0 <= t < |workers| :: workers[t].Finished?
    ensures multiset(Flat(outs)) == multiset(RangePairs(entries, keys, 0, |keys|, buildLeft))
    ensures |outs| == 1 ==> Flat(outs) == RangePairs(entries, keys, 0, |keys|, buildLeft)
  {
    hide Shares, RangePairs;
    assert WorkerFits(|keys|, counter, workers[0]);
    SharesFinished(entries, keys, buildLeft, workers, outs);
    if |outs| == 1 {
      assert outs[..0] == [] && Flat(outs) == [] + outs[0];
    }
  }

  /** The probe threads. Each turn of the loop lets an arbitrary unfinished thread take one atomic step. */
  method ProbePhase(table: FlatUnchainedHashTable, ghost entries: seq<Entry>, c: ColumnT, numThreads: nat,
                    buildLeft: bool)
    returns (outs: seq<seq<Pair>>)
    requires table.Holds(entries) && c.Valid() && c.numValues <= 0x1_0000_0000 && |Keys(c)| == c.numValues
    requires numThreads > 0
    ensures |outs| == numThreads
    ensures multiset(Flat(outs)) == multiset(RangePairs(entries, Keys(c), 0, c.numValues, buildLeft))
    ensures numThreads == 1 ==> Flat(outs) == RangePairs(entries, Keys(c), 0, c.numValues, buildLeft)
  {
    hide FlatUnchainedHashTable.Holds, ColumnT.Valid, Keys, ProbeState, RangePairs, RowPairs, CursorAt, Ranks;
    ghost var keys := Keys(c);
    var n := c.numValues;
    var coordinator := new WorkStealingCoordinator(n, numThreads, 256, 16);
    BlockSizePositive(n, numThreads, 256, 16);
    var workers: seq<Worker> := seq(numThreads, _ => Ready);
    outs := seq(numThreads, _ => []);
    ProbeStart(entries, keys, buildLeft, numThreads);
    while exists t :: 0 <= t < |workers| && !workers[t].Finished?
      invariant |workers| == |outs| == numThreads
      invariant ProbeState(entries, keys, buildLeft, coordinator.workCounter, workers, outs)
      invariant forall t | 0 <= t < |workers| && workers[t].Busy? :: CursorAt(c, workers[t].page, workers[t].j)
      invariant coordinator.totalWork == n && (n > 0 ==> coordinator.blockSize > 0)
      decreases n - Min(n, coordinator.workCounter), Ranks(workers)
    {
      var t :| 0 <= t < |workers| && !workers[t].Finished?;
      StateFits(entries, keys, buildLeft, coordinator.workCounter, workers, outs, t);
      match workers[t] {
        case Ready =>
          ghost var counter := coordinator.workCounter;
          var ok, begin, end := coordinator.StealBlock();
          if ok {
            var page := LocatePage(c, begin);
            StealStep(entries, keys, buildLeft, counter, coordinator.blockSize, workers, outs, t, page);
            workers := workers[t := Busy(begin, end, page)];
          } else {
            StealStep(entries, keys, buildLeft, counter, coordinator.blockSize, workers, outs, t, 0);
            RanksUpdate(workers, t, Finished);
            workers := workers[t := Finished];
          }
        case Busy(j, end, page0) =>
          if j < end {
            var ps, page := ProbeRow(table, entries, c, j, page0, buildLeft);
            RowStep(entries, keys, buildLeft, coordinator.workCounter, workers, outs, t, page);
            RanksUpdate(workers, t, Busy(j + 1, end, page));
            CursorMoves(c, page, j);
            workers, outs := workers[t := Busy(j + 1, end, page)], outs[t := outs[t] + ps];
          } else {
            BlockStep(entries, keys, buildLeft, coordinator.workCounter, workers, outs, t);
            RanksUpdate(workers, t, Ready);
            workers := workers[t := Ready];
          }
      }
    }
    ProbeEnd(entries, keys, buildLeft, coordinator.workCounter, workers, outs);
  }

  lemma StateFits(entries: seq<Entry>, keys: seq<Key>, buildLeft: bool, counter: nat,
                  workers: seq<Worker>, outs: seq<seq<Pair>>, t: nat)
    requires ProbeState(entries, keys, buildLeft, counter, workers, outs) && t < |workers|
    ensures WorkerFits(|keys|, counter, workers[t])
  {
  }

  lemma CursorMoves(c: ColumnT, page: nat, j: nat)
    requires CursorAt(c, page, j)
    ensures CursorAt(c, page, j + 1)
  {
  }
}
