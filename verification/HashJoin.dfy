/** One join node: choose the build column, probe, and gather the output columns. */
module HashJoin {
  import opened Bytes
  import opened IntPages
  import opened LateMaterialization
  import opened ColumnBuffers
  import opened Scan
  import opened Unchained
  import opened WorkStealing
  import opened Join

  datatype ColumnBuffer = ColumnBuffer(columns: seq<ColumnT>, numRows: nat, types: seq<DataType>) {
    ghost predicate Valid()
      reads columns`pages, columns`srcColumn, columns`pageOffsets, columns`isZeroCopy, columns`numValues
    {
      && |types| == |columns|
      && forall k | 0 <= k < |columns| :: columns[k].Valid() && columns[k].numValues == numRows
    }
  }

  const ROW_LIMIT: nat := 0x1_0000_0000

  // ---------- build ----------

  /** The copying build input: every row whose payload is not NULL. */
  method CollectEntries(c: ColumnT) returns (entries: seq<Entry>)
    requires c.Valid() && (!c.isZeroCopy || c.numValues == 0) && c.numValues < ROW_LIMIT
    ensures |Keys(c)| == c.numValues && entries == KeyEntries(Keys(c))
  {
    hide KeyEntries, Keys, ColumnT.Valid, ColumnT.View, IntOfRaw, Materialised, InPlace, DecodeInt, Mapped;
    KeyCount(c);
    ghost var keys := Keys(c);
    entries := [];
    NoKeyEntries();
    for i := 0 to c.numValues
      invariant entries == KeyEntries(keys[..i])
    {
      CopiedKey(c, i);
      var page, slot := i / VALUES_PER_PAGE, i % VALUES_PER_PAGE;
      var v := c.pages[page][slot];
      assert keys[..i + 1] == keys[..i] + [keys[i]];
      KeyEntriesSnoc(keys[..i], keys[i]);
      if v != NULL_RAW {
        entries := entries + [Entry(AsI32(v), i)];
      }
    }
    assert keys[..|keys|] == keys;
  }

  /** A row's key, where the copying build finds it. */
  lemma CopiedKey(c: ColumnT, i: nat)
    requires c.Valid() && !c.isZeroCopy && i < c.numValues == |Keys(c)|
    ensures i / VALUES_PER_PAGE < |c.pages| && i % VALUES_PER_PAGE < |c.pages[i / VALUES_PER_PAGE]|
    ensures var raw := c.pages[i / VALUES_PER_PAGE][i % VALUES_PER_PAGE];
      if raw == NULL_RAW then Keys(c)[i].None? else Keys(c)[i] == Some(AsI32(raw))
  {
    hide DecodeInt;
    PackedCell(c.pages, c.numValues, i);
  }

  lemma NoKeyEntries()
    ensures KeyEntries([]) == []
  {
  }

  /** The build phase; `empty` reports the early exit without entries. */
  method BuildTable(c: ColumnT) returns (table: FlatUnchainedHashTable, empty: bool)
    requires c.Valid() && c.numValues < ROW_LIMIT
    ensures |Keys(c)| == c.numValues
    ensures empty ==> KeyEntries(Keys(c)) == []
    ensures !empty ==> table.Holds(KeyEntries(Keys(c)))
    ensures fresh(table)
  {
    hide KeyEntries, DecodeInt, FlatUnchainedHashTable.Holds, FlatUnchainedHashTable.Valid, Indexed, NoNulls, IsIndex;
    KeyCount(c);
    table := new FlatUnchainedHashTable();
    empty := false;
    if UsesCursor(c) {
      table.Reserve(c.numValues);
      DenseEntries(DecodeInt(c.srcColumn.value));
      table.BuildFromPages(c.srcColumn.value, c.pageOffsets, c.numValues);
    } else {
      if c.numValues > 0 { NotInPlace(c); }
      var entries := CollectEntries(c);
      if entries == [] {
        empty := true;
      } else {
        table.Reserve(|entries|);
        table.BuildFromEntries(entries);
      }
    }
  }

  // ---------- output columns ----------

  /** Space for `n` values, page by page. */
  method AllocateColumn(n: nat) returns (c: ColumnT)
    ensures fresh(c) && c.Valid() && !c.isZeroCopy && c.numValues == n
  {
    c := new ColumnT();
    var written := 0;
    while written < n
      invariant written <= n && !c.isZeroCopy && Packed(c.pages, written)
      invariant written < n ==> written % VALUES_PER_PAGE == 0
    {
      var take := Min(VALUES_PER_PAGE, n - written);
      AllocatePage(c.pages, written, take);
      c.pages := c.pages + [seq(take, _ => 0)];
      written := written + take;
    }
    c.numValues := n;
  }

  lemma AllocatePage(pages: seq<seq<u64>>, written: nat, take: nat)
    requires Packed(pages, written) && written % VALUES_PER_PAGE == 0 && 0 < take <= VALUES_PER_PAGE
    ensures Packed(pages + [seq(take, _ => 0)], written + take)
  {
    assert |pages| == written / VALUES_PER_PAGE;
  }

  /** `pages[i / page_size][i % page_size] = v` */
  function PutAt(pages: seq<seq<u64>>, i: nat, v: u64): seq<seq<u64>>
    requires i / VALUES_PER_PAGE < |pages| && i % VALUES_PER_PAGE < |pages[i / VALUES_PER_PAGE]|
  {
    var row: seq<u64> := pages[i / VALUES_PER_PAGE][i % VALUES_PER_PAGE := v];
    pages[i / VALUES_PER_PAGE := row]
  }

  method PutCell(c: ColumnT, i: nat, v: u64)
    requires c.Valid() && !c.isZeroCopy && i < c.numValues
    modifies c`pages
    ensures c.Valid() && c.View() == old(c.View())[i := v]
  {
    PackedCell(c.pages, c.numValues, i);
    PutAtView(c.pages, c.numValues, i, v);
    c.pages := PutAt(c.pages, i, v);
  }

  lemma PutAtView(pages: seq<seq<u64>>, n: nat, i: nat, v: u64)
    requires Packed(pages, n) && i < n
    requires i / VALUES_PER_PAGE < |pages| && i % VALUES_PER_PAGE < |pages[i / VALUES_PER_PAGE]|
    ensures Packed(PutAt(pages, i, v), n) && Materialised(PutAt(pages, i, v), n) == Materialised(pages, n)[i := v]
  {
    var after := PutAt(pages, i, v);
    forall j | 0 <= j < n ensures CellAt(after, j) == if j == i then v else CellAt(pages, j) {
      PackedCell(pages, n, j);
      assert j / VALUES_PER_PAGE == i / VALUES_PER_PAGE && j % VALUES_PER_PAGE == i % VALUES_PER_PAGE ==> j == i;
    }
  }

  /** The values an output column takes from its source column, pair by pair. */
  ghost function Gather(view: seq<u64>, pairs: seq<Pair>, fromLeft: bool): (vs: seq<u64>)
    ensures |vs| == |pairs|
  {
    seq(|pairs|, i requires 0 <= i < |pairs| =>
      var row := if fromLeft then pairs[i].0 else pairs[i].1;
      if row < |view| then view[row] else NULL_RAW)
  }

  /** Source column `src` counts the left columns first. */
  ghost function Source(left: seq<seq<u64>>, right: seq<seq<u64>>, src: nat): seq<u64>
    requires src < |left| + |right|
  {
    if src < |left| then left[src] else right[src - |left|]
  }

  ghost function Views(columns: seq<ColumnT>): (vs: seq<seq<u64>>)
    reads columns`pages, columns`srcColumn, columns`isZeroCopy, columns`numValues
    ensures |vs| == |columns|
  {
    if columns == [] then [] else
      Views(columns[..|columns| - 1]) + [columns[|columns| - 1].View()]
  }

  lemma {:induction false} ViewAt(columns: seq<ColumnT>, k: nat)
    requires k < |columns|
    ensures Views(columns)[k] == columns[k].View()
  {
    hide ColumnT.View;
    if k < |columns| - 1 {
      ViewAt(columns[..|columns| - 1], k);
    }
  }

  ghost predicate InRange(pairs: seq<Pair>, leftRows: nat, rightRows: nat) {
    forall i | 0 <= i < |pairs| :: pairs[i].0 < leftRows && pairs[i].1 < rightRows
  }

  /** The first `n` values of an output column are in place. */
  ghost predicate Filled(c: ColumnT, want: seq<u64>, n: nat)
    reads c`pages, c`srcColumn, c`pageOffsets, c`isZeroCopy, c`numValues
  {
    && c.Valid() && !c.isZeroCopy && c.numValues == |want| && n <= |want|
    && |c.View()| == |want| && c.View()[..n] == want[..n]
  }

  ghost predicate Distinct(columns: seq<ColumnT>) {
    forall a, b | 0 <= a < b < |columns| :: columns[a] != columns[b]
  }

  method AllocateColumns(count: nat, n: nat, ghost wants: seq<seq<u64>>) returns (cols: seq<ColumnT>)
    requires |wants| == count && forall k | 0 <= k < count :: |wants[k]| == n
    ensures |cols| == count && Distinct(cols)
    ensures forall k | 0 <= k < count :: fresh(cols[k]) && Filled(cols[k], wants[k], 0)
  {
    cols := [];
    for k := 0 to count
      invariant |cols| == k && Distinct(cols)
      invariant forall j | 0 <= j < k :: fresh(cols[j]) && allocated(cols[j]) && Filled(cols[j], wants[j], 0)
    {
      var c := AllocateColumn(n);
      ViewLength(c);
      cols := cols + [c];
    }
  }

  /** What output column `k` must hold. */
  ghost function Wanted(left: seq<seq<u64>>, right: seq<seq<u64>>, attrs: seq<nat>,
                        pairs: seq<Pair>): (ws: seq<seq<u64>>)
    requires forall k | 0 <= k < |attrs| :: attrs[k] < |left| + |right|
    ensures |ws| == |attrs|
    ensures forall k | 0 <= k < |attrs| :: ws[k] == Gather(Source(left, right, attrs[k]), pairs, attrs[k] < |left|)
  {
    seq(|attrs|, k requires 0 <= k < |attrs| => Gather(Source(left, right, attrs[k]), pairs, attrs[k] < |left|))
  }

  /** Inputs, output columns and what the output is to hold: everything one output row depends on. */
  ghost predicate Copying(left: ColumnBuffer, right: ColumnBuffer, attrs: seq<nat>, cols: seq<ColumnT>,
                          leftViews: seq<seq<u64>>, rightViews: seq<seq<u64>>, pairs: seq<Pair>, wants: seq<seq<u64>>)
    reads left.columns`pages, left.columns`srcColumn, left.columns`pageOffsets, left.columns`isZeroCopy
    reads left.columns`numValues
    reads right.columns`pages, right.columns`srcColumn, right.columns`pageOffsets, right.columns`isZeroCopy
    reads right.columns`numValues
  {
    && left.Valid() && right.Valid() && Views(left.columns) == leftViews && Views(right.columns) == rightViews
    && |cols| == |attrs| && Distinct(cols)
    && (forall k | 0 <= k < |attrs| :: attrs[k] < |left.columns| + |right.columns|)
    && (forall k | 0 <= k < |cols| :: cols[k] !in left.columns && cols[k] !in right.columns)
    && wants == Wanted(leftViews, rightViews, attrs, pairs)
  }

  /** One output row: each column takes its value from the left or the right input. */
  method CopyRow(left: ColumnBuffer, right: ColumnBuffer, attrs: seq<nat>, cols: seq<ColumnT>, i: nat, p: Pair,
                 ghost leftViews: seq<seq<u64>>, ghost rightViews: seq<seq<u64>>, ghost pairs: seq<Pair>,
                 ghost wants: seq<seq<u64>>)
    requires Copying(left, right, attrs, cols, leftViews, rightViews, pairs, wants) && |cols| == |attrs|
    requires i < |pairs| && pairs[i] == p && p.0 < left.numRows && p.1 < right.numRows && RowPart(cols, wants, i, 0)
    modifies cols`pages, left.columns`cachedPageIdx, right.columns`cachedPageIdx
    ensures Copying(left, right, attrs, cols, leftViews, rightViews, pairs, wants) && RowPart(cols, wants, i + 1, 0)
  {
    hide *;
    for k := 0 to |attrs|
      invariant Copying(left, right, attrs, cols, leftViews, rightViews, pairs, wants) && RowPart(cols, wants, i, k)
    {
      CopyCell(left, right, attrs, cols, cols[k], k, i, p, leftViews, rightViews, pairs, wants);
    }
    RowComplete(cols, wants, i);
  }

  method CopyCell(left: ColumnBuffer, right: ColumnBuffer, attrs: seq<nat>, cols: seq<ColumnT>, c: ColumnT, k: nat,
                  i: nat, p: Pair,
                  ghost leftViews: seq<seq<u64>>, ghost rightViews: seq<seq<u64>>, ghost pairs: seq<Pair>,
                  ghost wants: seq<seq<u64>>)
    requires Copying(left, right, attrs, cols, leftViews, rightViews, pairs, wants)
    requires k < |attrs| == |cols| && cols[k] == c && RowPart(cols, wants, i, k)
    requires i < |pairs| && pairs[i] == p && p.0 < left.numRows && p.1 < right.numRows
    modifies c`pages, left.columns`cachedPageIdx, right.columns`cachedPageIdx
    ensures Copying(left, right, attrs, cols, leftViews, rightViews, pairs, wants) && RowPart(cols, wants, i, k + 1)
    ensures i < |wants[k]| && i < |old(c.View())| && c.View() == old(c.View())[i := wants[k][i]]
  {
    hide ColumnBuffer.Valid, Views, Wanted, RowPart, Source, Gather;
    var v := ReadSource(left, right, attrs[k], p);
    WantedAt(leftViews, rightViews, attrs, pairs, k, i);
    PutPart(cols, c, k, i, v, wants);
  }

  /** The first `k` columns have row `i`, the others the rows before it. */
  ghost predicate RowPart(cols: seq<ColumnT>, wants: seq<seq<u64>>, i: nat, k: nat)
    reads cols`pages, cols`srcColumn, cols`pageOffsets, cols`isZeroCopy, cols`numValues
  {
    |cols| == |wants| && forall j | 0 <= j < |cols| :: Filled(cols[j], wants[j], if j < k then i + 1 else i)
  }

  lemma RowComplete(cols: seq<ColumnT>, wants: seq<seq<u64>>, i: nat)
    requires RowPart(cols, wants, i, |cols|)
    ensures RowPart(cols, wants, i + 1, 0)
  {
    hide Filled;
  }

  method PutPart(cols: seq<ColumnT>, c: ColumnT, k: nat, i: nat, v: u64, ghost wants: seq<seq<u64>>)
    requires Distinct(cols) && k < |cols| && cols[k] == c
    requires RowPart(cols, wants, i, k) && i < |wants[k]| && wants[k][i] == v
    modifies c`pages
    ensures RowPart(cols, wants, i, k + 1) && i < |old(c.View())| && c.View() == old(c.View())[i := v]
  {
    hide Filled;
    assert Filled(cols[k], wants[k], i);
    PutNext(c, i, v, wants[k]);
  }

  method ReadSource(left: ColumnBuffer, right: ColumnBuffer, src: nat, p: Pair) returns (v: u64)
    requires left.Valid() && right.Valid() && p.0 < left.numRows && p.1 < right.numRows
    requires src < |left.columns| + |right.columns|
    modifies left.columns`cachedPageIdx, right.columns`cachedPageIdx
    ensures var row := if src < |left.columns| then p.0 else p.1;
      var view := Source(old(Views(left.columns)), old(Views(right.columns)), src);
      row < |view| && v == view[row]
  {
    hide ColumnT.View, ColumnT.Valid;
    if src < |left.columns| {
      v := ReadCell(left, src, p.0);
    } else {
      v := ReadCell(right, src - |left.columns|, p.1);
    }
  }

  method ReadCell(b: ColumnBuffer, k: nat, row: nat) returns (v: u64)
    requires b.Valid() && k < |b.columns| && row < b.numRows
    modifies b.columns`cachedPageIdx
    ensures row < |old(Views(b.columns))[k]| && v == old(Views(b.columns))[k][row]
  {
    assert b.columns[k].Valid() && b.columns[k].numValues == b.numRows;
    ViewAt(b.columns, k);
    hide ColumnBuffer.Valid, ColumnT.Valid, ColumnT.View, Views;
    var c := b.columns[k];
    ViewLength(c);
    v := c.Get(row);
  }

  lemma WantedAt(left: seq<seq<u64>>, right: seq<seq<u64>>, attrs: seq<nat>, pairs: seq<Pair>, k: nat, i: nat)
    requires forall j | 0 <= j < |attrs| :: attrs[j] < |left| + |right|
    requires k < |attrs| && i < |pairs|
    ensures var ws := Wanted(left, right, attrs, pairs);
      var view := Source(left, right, attrs[k]);
      var row := if attrs[k] < |left| then pairs[i].0 else pairs[i].1;
      |ws[k]| == |pairs| && (row < |view| ==> ws[k][i] == view[row])
  {
  }

  method PutNext(c: ColumnT, i: nat, v: u64, ghost want: seq<u64>)
    requires Filled(c, want, i) && i < |want| && want[i] == v
    modifies c`pages
    ensures Filled(c, want, i + 1) && i < |old(c.View())| && c.View() == old(c.View())[i := v]
  {
    hide ColumnT.Valid, ColumnT.View;
    ghost var before := c.View();
    PutCell(c, i, v);
    assert before[i := v][..i + 1] == before[..i] + [v];
  }

  /** Output materialisation: thread by thread, pair by pair. */
  method Materialise(left: ColumnBuffer, right: ColumnBuffer, attrs: seq<nat>, outs: seq<seq<Pair>>)
    returns (cols: seq<ColumnT>)
    requires left.Valid() && right.Valid() && InRange(Flat(outs), left.numRows, right.numRows)
    requires forall k | 0 <= k < |attrs| :: attrs[k] < |left.columns| + |right.columns|
    modifies left.columns`cachedPageIdx, right.columns`cachedPageIdx
    ensures |cols| == |attrs|
    ensures forall k | 0 <= k < |cols| :: fresh(cols[k]) && Filled(cols[k],
      Wanted(old(Views(left.columns)), old(Views(right.columns)), attrs, Flat(outs))[k], |Flat(outs)|)
  {
    hide *;
    ghost var leftViews, rightViews, pairs := Views(left.columns), Views(right.columns), Flat(outs);
    ghost var wants := Wanted(leftViews, rightViews, attrs, pairs);
    var total := CountPairs(outs);
    WantedLengths(leftViews, rightViews, attrs, pairs);
    cols := AllocateColumns(|attrs|, total, wants);
    StartCopying(left, right, attrs, cols, leftViews, rightViews, pairs, wants);
    var outIdx := CopyAll(left, right, attrs, cols, outs, leftViews, rightViews, pairs, wants);
    AllRows(cols, wants, outIdx);
  }

  lemma StartCopying(left: ColumnBuffer, right: ColumnBuffer, attrs: seq<nat>, cols: seq<ColumnT>,
                     leftViews: seq<seq<u64>>, rightViews: seq<seq<u64>>, pairs: seq<Pair>, wants: seq<seq<u64>>)
    requires left.Valid() && right.Valid() && Views(left.columns) == leftViews && Views(right.columns) == rightViews
    requires |cols| == |attrs| == |wants| && Distinct(cols)
    requires forall k | 0 <= k < |attrs| :: attrs[k] < |left.columns| + |right.columns|
    requires forall k | 0 <= k < |cols| :: cols[k] !in left.columns && cols[k] !in right.columns
    requires wants == Wanted(leftViews, rightViews, attrs, pairs)
    requires forall k | 0 <= k < |cols| :: Filled(cols[k], wants[k], 0)
    ensures Copying(left, right, attrs, cols, leftViews, rightViews, pairs, wants) && RowPart(cols, wants, 0, 0)
  {
    hide ColumnBuffer.Valid, Views, Filled, Wanted;
  }

  /** The threads' pairs, one list after the other. */
  method CopyAll(left: ColumnBuffer, right: ColumnBuffer, attrs: seq<nat>, cols: seq<ColumnT>, outs: seq<seq<Pair>>,
                 ghost leftViews: seq<seq<u64>>, ghost rightViews: seq<seq<u64>>, ghost pairs: seq<Pair>,
                 ghost wants: seq<seq<u64>>)
    returns (outIdx: nat)
    requires Copying(left, right, attrs, cols, leftViews, rightViews, pairs, wants) && |cols| == |attrs|
    requires pairs == Flat(outs) && InRange(pairs, left.numRows, right.numRows) && RowPart(cols, wants, 0, 0)
    modifies cols`pages, left.columns`cachedPageIdx, right.columns`cachedPageIdx
    ensures RowPart(cols, wants, outIdx, 0) && outIdx == |pairs|
  {
    hide *;
    outIdx := 0;
    FlatEmpty(outs);
    for t := 0 to |outs|
      invariant outIdx == |Flat(outs[..t])|
      invariant Copying(left, right, attrs, cols, leftViews, rightViews, pairs, wants)
      invariant RowPart(cols, wants, outIdx, 0)
    {
      ghost var next := FlatSlice(outs, t, outIdx);
      CopyThread(left, right, attrs, cols, outs[t], outIdx, next, leftViews, rightViews, pairs, wants);
      outIdx := outIdx + |outs[t]|;
    }
    FlatEmpty(outs);
  }

  /** Where a thread's pairs lie among all pairs. */
  lemma FlatSlice<T>(outs: seq<seq<T>>, t: nat, base: nat) returns (next: nat)
    requires t < |outs| && base == |Flat(outs[..t])|
    ensures next == base + |outs[t]| == |Flat(outs[..t + 1])|
    ensures next <= |Flat(outs)| && Flat(outs)[base..next] == outs[t]
  {
    hide Flat;
    next := base + |outs[t]|;
    FlatStep(outs, t);
    FlatPrefix(outs, t + 1);
    assert Flat(outs)[base..next] == Flat(outs[..t + 1])[base..next];
  }

  method CopyThread(left: ColumnBuffer, right: ColumnBuffer, attrs: seq<nat>, cols: seq<ColumnT>, out: seq<Pair>,
                    base: nat,
                    ghost next: nat, ghost leftViews: seq<seq<u64>>, ghost rightViews: seq<seq<u64>>,
                    ghost pairs: seq<Pair>, ghost wants: seq<seq<u64>>)
    requires Copying(left, right, attrs, cols, leftViews, rightViews, pairs, wants) && |cols| == |attrs|
    requires next == base + |out| && next <= |pairs| && pairs[base..next] == out
    requires InRange(pairs, left.numRows, right.numRows) && RowPart(cols, wants, base, 0)
    modifies cols`pages, left.columns`cachedPageIdx, right.columns`cachedPageIdx
    ensures Copying(left, right, attrs, cols, leftViews, rightViews, pairs, wants) && RowPart(cols, wants, next, 0)
  {
    hide *;
    var outIdx := base;
    for x := 0 to |out|
      invariant outIdx == base + x
      invariant Copying(left, right, attrs, cols, leftViews, rightViews, pairs, wants)
      invariant RowPart(cols, wants, outIdx, 0)
    {
      PairAt(pairs, left.numRows, right.numRows, out, base, next, x, outIdx);
      CopyRow(left, right, attrs, cols, outIdx, out[x], leftViews, rightViews, pairs, wants);
      outIdx := outIdx + 1;
    }
  }

  lemma PairAt(pairs: seq<Pair>, leftRows: nat, rightRows: nat, out: seq<Pair>, base: nat, next: nat, x: nat, i: nat)
    requires base <= next <= |pairs| && pairs[base..next] == out && x < |out|
    requires i == base + x && InRange(pairs, leftRows, rightRows)
    ensures i < |pairs| && pairs[i] == out[x] && out[x].0 < leftRows && out[x].1 < rightRows
  {
  }

  lemma AllRows(cols: seq<ColumnT>, wants: seq<seq<u64>>, n: nat)
    requires RowPart(cols, wants, n, 0)
    ensures |cols| == |wants| && forall k | 0 <= k < |cols| :: Filled(cols[k], wants[k], n)
  {
    hide Filled;
  }

  method CountPairs(outs: seq<seq<Pair>>) returns (total: nat)
    ensures total == |Flat(outs)|
  {
    hide Flat;
    total := 0;
    FlatEmpty(outs);
    for t := 0 to |outs|
      invariant total == |Flat(outs[..t])|
    {
      FlatStep(outs, t);
      total := total + |outs[t]|;
    }
  }

  lemma {:induction false} FlatEmpty<T>(outs: seq<seq<T>>)
    ensures Flat(outs[..0]) == [] && Flat(outs[..|outs|]) == Flat(outs)
  {
    assert outs[..|outs|] == outs;
  }

  lemma FlatStep<T>(outs: seq<seq<T>>, t: nat)
    requires t < |outs|
    ensures Flat(outs[..t + 1]) == Flat(outs[..t]) + outs[t]
  {
    assert outs[..t + 1][..t] == outs[..t];
  }

  lemma {:induction false} FlatPrefix<T>(outs: seq<seq<T>>, t: nat)
    requires t <= |outs|
    ensures Flat(outs[..t]) <= Flat(outs)
  {
    if t == |outs| {
      assert outs[..t] == outs;
    } else {
      FlatPrefix(outs[..|outs| - 1], t);
      assert outs[..|outs| - 1][..t] == outs[..t];
    }
  }

  lemma WantedLengths(left: seq<seq<u64>>, right: seq<seq<u64>>, attrs: seq<nat>, pairs: seq<Pair>)
    requires forall k | 0 <= k < |attrs| :: attrs[k] < |left| + |right|
    ensures forall k | 0 <= k < |attrs| :: |Wanted(left, right, attrs, pairs)[k]| == |pairs|
  {
  }

  // ---------- the join node ----------

  lemma JoinInRange(left: seq<Key>, right: seq<Key>, buildLeft: bool, pairs: seq<Pair>)
    requires |left| <= ROW_LIMIT && |right| <= ROW_LIMIT
    requires multiset(pairs) == multiset(JoinPairs(left, right, buildLeft))
    ensures InRange(pairs, |left|, |right|)
  {
    hide JoinPairs;
    forall i | 0 <= i < |pairs| ensures pairs[i].0 < |left| && pairs[i].1 < |right| {
      assert pairs[i] in multiset(pairs);
      JoinCount(left, right, buildLeft, pairs[i]);
    }
  }

  lemma {:induction false} NoPairs(keys: seq<Key>, lo: nat, buildLeft: bool)
    requires lo <= |keys| <= ROW_LIMIT
    ensures RangePairs([], keys, lo, |keys|, buildLeft) == []
    decreases |keys| - lo
  {
    if lo < |keys| {
      NoPairs(keys, lo + 1, buildLeft);
      if keys[lo].Some? { NoMatch(keys[lo].value); }
    }
  }

  lemma {:induction false} NothingToJoin(left: seq<Key>, right: seq<Key>, buildLeft: bool)
    requires |left| <= ROW_LIMIT && |right| <= ROW_LIMIT
    requires KeyEntries(if buildLeft then left else right) == []
    ensures JoinPairs(left, right, buildLeft) == []
  {
    NoPairs(if buildLeft then right else left, 0, buildLeft);
  }

  /** A result without rows. */
  method EmptyResult(types: seq<DataType>, ghost left: seq<seq<u64>>, ghost right: seq<seq<u64>>, ghost attrs: seq<nat>)
    returns (result: ColumnBuffer)
    requires |types| == |attrs| && forall k | 0 <= k < |attrs| :: attrs[k] < |left| + |right|
    ensures result.Valid() && result.types == types && result.numRows == 0
    ensures forall k | 0 <= k < |result.columns| :: fresh(result.columns[k]) && !result.columns[k].isZeroCopy
    ensures Views(result.columns) == Wanted(left, right, attrs, [])
  {
    var cols := AllocateColumns(|types|, 0, Wanted(left, right, attrs, []));
    FilledViews(cols, Wanted(left, right, attrs, []), 0);
    result := ColumnBuffer(cols, 0, types);
  }

  lemma {:induction false} FilledViews(cols: seq<ColumnT>, wants: seq<seq<u64>>, n: nat)
    requires |cols| == |wants|
    requires forall k | 0 <= k < |cols| :: Filled(cols[k], wants[k], n) && |wants[k]| == n
    ensures Views(cols) == wants
    ensures forall k | 0 <= k < |cols| :: cols[k].Valid() && !cols[k].isZeroCopy && cols[k].numValues == n
  {
    hide ColumnT.Valid, ColumnT.View, Views;
    forall k | 0 <= k < |cols| ensures Views(cols)[k] == wants[k] {
      assert Filled(cols[k], wants[k], n);
      assert cols[k].View()[..n] == cols[k].View() && wants[k][..n] == wants[k];
      ViewAt(cols, k);
    }
  }

  /** `JoinAlgorithm::run_int32`. `pairs` lists the joined rows in output order. */
  method RunInt32(left: ColumnBuffer, right: ColumnBuffer, leftCol: nat, rightCol: nat, buildLeft: bool,
                  attrs: seq<nat>, types: seq<DataType>, numThreads: nat)
    returns (result: ColumnBuffer, ghost pairs: seq<Pair>)
    requires left.Valid() && right.Valid() && left.numRows < ROW_LIMIT && right.numRows < ROW_LIMIT
    requires leftCol < |left.columns| && rightCol < |right.columns| && numThreads > 0
    requires |types| == |attrs| && forall k | 0 <= k < |attrs| :: attrs[k] < |left.columns| + |right.columns|
    modifies left.columns`cachedPageIdx, right.columns`cachedPageIdx
    ensures result.Valid() && result.types == types && result.numRows == |pairs|
    ensures forall k | 0 <= k < |result.columns| :: fresh(result.columns[k]) && !result.columns[k].isZeroCopy
    ensures Views(result.columns) == Wanted(old(Views(left.columns)), old(Views(right.columns)), attrs, pairs)
    ensures |old(Keys(left.columns[leftCol]))| == left.numRows && |old(Keys(right.columns[rightCol]))| == right.numRows
    ensures var joined := JoinPairs(old(Keys(left.columns[leftCol])), old(Keys(right.columns[rightCol])), buildLeft);
      multiset(pairs) == multiset(joined) && (numThreads == 1 ==> pairs == joined)
  {
    hide FlatUnchainedHashTable.Holds, ColumnT.Valid, ColumnT.View, Keys, KeyEntries, RangePairs, Views, Wanted,
      Filled, InRange, Flat;
    var buildCol := if buildLeft then left.columns[leftCol] else right.columns[rightCol];
    var probeCol := if buildLeft then right.columns[rightCol] else left.columns[leftCol];
    KeyCount(left.columns[leftCol]);
    KeyCount(right.columns[rightCol]);
    ghost var leftKeys, rightKeys := Keys(left.columns[leftCol]), Keys(right.columns[rightCol]);
    ghost var leftViews, rightViews := Views(left.columns), Views(right.columns);
    ghost var joined := JoinPairs(leftKeys, rightKeys, buildLeft);
    var table, empty := BuildTable(buildCol);
    if empty {
      NothingToJoin(leftKeys, rightKeys, buildLeft);
      pairs := [];
      result := EmptyResult(types, leftViews, rightViews, attrs);
      return;
    }
    var outs := ProbePhase(table, KeyEntries(Keys(buildCol)), probeCol, numThreads, buildLeft);
    pairs := Flat(outs);
    JoinInRange(leftKeys, rightKeys, buildLeft, pairs);
    var total := CountPairs(outs);
    if total == 0 {
      result := EmptyResult(types, leftViews, rightViews, attrs);
      return;
    }
    var cols := Materialise(left, right, attrs, outs);
    WantedLengths(leftViews, rightViews, attrs, pairs);
    FilledViews(cols, Wanted(leftViews, rightViews, attrs, pairs), |pairs|);
    result := ColumnBuffer(cols, total, types);
  }
}
