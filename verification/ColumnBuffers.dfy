/** Intermediate columns: materialised 64-bit payloads, or INT32 pages read in place through a page index. */
module ColumnBuffers {
  import opened Bytes
  import opened Pages
  import opened IntPages
  import opened LateMaterialization

  // ---------- which columns are read in place ----------

  ghost predicate NoNulls(rows: seq<IntRow>) { forall i | 0 <= i < |rows| :: rows[i].Some? }

  lemma MaskTest(b: byte, m: nat)
    requires m <= 8
    ensures And(b, LowMask(m)) == LowMask(m) <==> forall k: nat | k < m :: Bit(b, k)
  {
    hide Bit, And, LowMask;
    if forall k: nat | k < m :: Bit(b, k) {
      SameBits(And(b, LowMask(m)), LowMask(m));
    }
  }

  /** Byte `i` of a page's bitmap has all its row bits set. */
  lemma BitmapByte(p: Page, n: u16, i: nat, m: nat)
    requires i < BitmapSize(n) && m == if i == BitmapSize(n) - 1 && n % 8 != 0 then n % 8 else 8
    ensures And(p[PAGE_SIZE - BitmapSize(n) + i], LowMask(m)) == LowMask(m) <==>
      forall r: nat | 8 * i <= r < n && r < 8 * i + 8 :: RowBit(p, n, r)
  {
    hide Bit, And, LowMask;
    var b := p[PAGE_SIZE - BitmapSize(n) + i];
    MaskTest(b, m);
    assert forall r: nat | 8 * i <= r < n && r < 8 * i + 8 :: r / 8 == i && r % 8 == r - 8 * i < m;
    if forall r: nat | 8 * i <= r < n && r < 8 * i + 8 :: RowBit(p, n, r) {
      forall k: nat | k < m ensures Bit(b, k) {
        assert RowBit(p, n, 8 * i + k);
      }
    }
  }

  ghost predicate PageFull(p: Page) {
    forall i: nat | i < ReadU16(p, 0) :: RowBit(p, ReadU16(p, 0), i)
  }

  method PageHasNulls(p: Page) returns (r: bool)
    ensures r <==> !PageFull(p)
  {
    hide Bit, And, LowMask, RowBit, ReadU16;
    var n := ReadU16(p, 0);
    var bytes := BitmapSize(n);
    for i := 0 to bytes
      invariant forall r: nat | r < n && r < 8 * i :: RowBit(p, n, r)
    {
      var m := if i == bytes - 1 && n % 8 != 0 then n % 8 else 8;
      BitmapByte(p, n, i, m);
      if And(p[PAGE_SIZE - bytes + i], LowMask(m)) != LowMask(m) {
        return true;
      }
    }
    return false;
  }

  lemma RowAt(p: Page, i: nat, n: nat)
    requires n == ReadU16(p, 0) && i < n
    ensures IntPageRows(p)[i].Some? == RowBit(p, n, i)
    ensures PageFull(p) ==> IntPageRows(p)[i] == Some(ReadI32(p, INT_DATA + 4 * i))
  {
    hide ReadI32, ReadU16, RowBit;
    IntRowsPrefix(p, i + 1, n);
    assert IntPageRows(p)[i] == IntRows(p, i + 1)[i];
    IntRowsSnoc(p, i);
    if PageFull(p) {
      FullRanks(p, i);
    }
  }

  lemma FullPageRows(p: Page)
    ensures PageFull(p) <==> NoNulls(IntPageRows(p))
    ensures PageFull(p) ==> forall i: nat | i < ReadU16(p, 0) ::
      IntPageRows(p)[i] == Some(ReadI32(p, INT_DATA + 4 * i))
  {
    hide ReadI32, ReadU16, RowBit, IntRows;
    var n := ReadU16(p, 0);
    forall i: nat | i < n
      ensures IntPageRows(p)[i].Some? == RowBit(p, n, i)
      ensures PageFull(p) ==> IntPageRows(p)[i] == Some(ReadI32(p, INT_DATA + 4 * i))
    {
      RowAt(p, i, n);
    }
  }

  lemma FullCell(p: Page, k: nat, rank: nat)
    requires PageFull(p) && k < ReadU16(p, 0)
    ensures IntCell(p, k, rank).Some?
  {
  }

  lemma {:induction false} FullRanks(p: Page, i: nat)
    requires PageFull(p) && i <= ReadU16(p, 0)
    ensures |Values(IntRows(p, i))| == i
  {
    if i > 0 {
      var k := i - 1;
      FullRanks(p, k);
      FullCell(p, k, |Values(IntRows(p, k))|);
      hide *;
      IntRowsSnoc(p, k);
      ValuesSnoc(IntRows(p, k), IntCell(p, k, |Values(IntRows(p, k))|));
    } else {
      NoIntRows(p);
    }
  }

  /** `column_has_nulls`: only an INT32 column without a NULL row may be read in place. */
  method ColumnHasNulls(column: Column) returns (r: bool)
    ensures !r <==> column.dataType == INT32 && NoNulls(DecodeInt(column.pages))
  {
    if column.dataType != INT32 { return true; }
    assert DecodeInt(column.pages[..0]) == [];
    hide PageFull, IntPageRows, NoNulls, DecodeInt;
    NoNullsConcat([], []);
    for k := 0 to |column.pages|
      invariant NoNulls(DecodeInt(column.pages[..k]))
    {
      var p := column.pages[k];
      assert column.pages[..k + 1] == column.pages[..k] + [p];
      FullPageRows(p);
      DecodeIntSnoc(column.pages[..k], p);
      NoNullsConcat(DecodeInt(column.pages[..k]), IntPageRows(p));
      var nulls := PageHasNulls(p);
      if nulls {
        DecodeIntPrefix(column.pages, k + 1);
        if NoNulls(DecodeInt(column.pages)) {
          NoNullsPrefix(DecodeInt(column.pages[..k + 1]), DecodeInt(column.pages));
        }
        return true;
      }
    }
    assert column.pages[..|column.pages|] == column.pages;
    return false;
  }

  lemma {:induction false} DecodeIntSnoc(pages: seq<Page>, p: Page)
    ensures DecodeInt(pages + [p]) == DecodeInt(pages) + IntPageRows(p)
  {
    assert (pages + [p])[..|pages|] == pages;
  }

  lemma NoNullsConcat(a: seq<IntRow>, b: seq<IntRow>)
    ensures NoNulls(a + b) <==> NoNulls(a) && NoNulls(b)
    ensures NoNulls([])
  {
    if NoNulls(a + b) {
      assert forall i | 0 <= i < |a| :: (a + b)[i] == a[i];
      assert forall i | 0 <= i < |b| :: (a + b)[|a| + i] == b[i];
    }
  }

  lemma NoNullsPrefix(a: seq<IntRow>, b: seq<IntRow>)
    requires a <= b && NoNulls(b)
    ensures NoNulls(a)
  {
  }

  // ---------- the page index of a column read in place ----------

  function RowsBefore(pages: seq<Page>, k: nat): nat
    requires k <= |pages|
  {
    if k == 0 then 0 else RowsBefore(pages, k - 1) + ReadU16(pages[k - 1], 0)
  }

  /** `page_offsets`: cumulative row counts, one more entry than pages; empty pages repeat an offset. */
  ghost predicate IsIndex(offs: seq<nat>, pages: seq<Page>) {
    |offs| == |pages| + 1 && forall k | 0 <= k <= |pages| :: offs[k] == RowsBefore(pages, k)
  }

  lemma {:induction false} IndexCounts(pages: seq<Page>, k: nat)
    requires k <= |pages|
    ensures RowsBefore(pages, k) == |DecodeInt(pages[..k])| <= |DecodeInt(pages)|
  {
    DecodeIntPrefix(pages, k);
    if k > 0 {
      IndexCounts(pages, k - 1);
      assert pages[..k] == pages[..k - 1] + [pages[k - 1]];
      DecodeIntSnoc(pages[..k - 1], pages[k - 1]);
    }
  }

  lemma {:induction false} IndexTotal(offs: seq<nat>, pages: seq<Page>)
    requires IsIndex(offs, pages)
    ensures offs[0] == 0 && offs[|offs| - 1] == |DecodeInt(pages)|
  {
    IndexCounts(pages, |pages|);
    assert pages[..|pages|] == pages;
  }

  /** A row read through the index is the row of the flat column. */
  lemma {:induction false} DirectRead(offs: seq<nat>, pages: seq<Page>, k: nat, row: nat)
    requires IsIndex(offs, pages) && NoNulls(DecodeInt(pages))
    requires k < |pages| && offs[k] <= row < offs[k + 1]
    ensures row < |DecodeInt(pages)|
    ensures DecodeInt(pages)[row] == Some(ReadI32(pages[k], INT_DATA + 4 * (row - offs[k])))
  {
    hide ReadI32, ReadU16, IntPageRows, PageFull;
    assert pages[..k + 1] == pages[..k] + [pages[k]];
    IndexCounts(pages, k);
    IndexCounts(pages, k + 1);
    DecodeIntSnoc(pages[..k], pages[k]);
    DecodeIntPrefix(pages, k + 1);
    NoNullsPrefix(DecodeInt(pages[..k + 1]), DecodeInt(pages));
    NoNullsConcat(DecodeInt(pages[..k]), IntPageRows(pages[k]));
    FullPageRows(pages[k]);
    assert DecodeInt(pages)[row] == DecodeInt(pages[..k + 1])[row] == IntPageRows(pages[k])[row - offs[k]];
  }

  /** The binary search of `get`, `get_cached` and the probe cursor. */
  method FindPage(offs: seq<nat>, row: nat) returns (k: nat)
    requires |offs| >= 2 && offs[0] <= row < offs[|offs| - 1]
    ensures k + 1 < |offs| && offs[k] <= row < offs[k + 1]
  {
    var left, right := 0, |offs| - 1;
    while left < right - 1
      invariant 0 <= left < right < |offs| && offs[left] <= row < offs[right]
    {
      var mid := (left + right) / 2;
      if row < offs[mid] { right := mid; } else { left := mid; }
    }
    k := left;
  }

  // ---------- column_t ----------

  const VALUES_PER_PAGE: nat := 1024

  function CellAt(pages: seq<seq<u64>>, i: nat): u64 {
    var page, off := i / VALUES_PER_PAGE, i % VALUES_PER_PAGE;
    if page < |pages| && off < |pages[page]| then pages[page][off] else NULL_RAW
  }

  /** Every page is full but the last, which holds the remainder. */
  ghost predicate Packed(pages: seq<seq<u64>>, n: nat) {
    && |pages| == (n + VALUES_PER_PAGE - 1) / VALUES_PER_PAGE
    && forall k | 0 <= k < |pages| ::
         |pages[k]| == if VALUES_PER_PAGE * (k + 1) <= n then VALUES_PER_PAGE else n - VALUES_PER_PAGE * k
  }

  lemma PackedCell(pages: seq<seq<u64>>, n: nat, i: nat)
    requires Packed(pages, n) && i < n
    ensures i / VALUES_PER_PAGE < |pages| && i % VALUES_PER_PAGE < |pages[i / VALUES_PER_PAGE]|
  {
  }

  function Materialised(pages: seq<seq<u64>>, n: nat): (vs: seq<u64>)
    ensures |vs| == n
  {
    seq(n, i requires 0 <= i < n => CellAt(pages, i))
  }

  /** The payloads of a column read in place. */
  function InPlace(src: seq<Page>): (vs: seq<u64>)
    ensures |vs| == |DecodeInt(src)|
  {
    var rows := DecodeInt(src);
    seq(|rows|, i requires 0 <= i < |rows| => MakeI32(rows[i].Get(0)))
  }

  class ColumnT {
    var pages: seq<seq<u64>>
    var srcColumn: Option<seq<Page>>
    var pageOffsets: seq<nat>
    var isZeroCopy: bool
    var numValues: nat
    var cachedPageIdx: nat

    ghost predicate Valid()
      reads this`pages, this`srcColumn, this`pageOffsets, this`isZeroCopy, this`numValues
    {
      if isZeroCopy then
        && srcColumn.Some?
        && IsIndex(pageOffsets, srcColumn.value) && NoNulls(DecodeInt(srcColumn.value))
        && numValues == |DecodeInt(srcColumn.value)|
      else Packed(pages, numValues)
    }

    /** The column as a flat sequence of payloads. */
    ghost function View(): seq<u64>
      reads this`pages, this`srcColumn, this`isZeroCopy, this`numValues
    {
      if isZeroCopy && srcColumn.Some? then InPlace(srcColumn.value) else Materialised(pages, numValues)
    }

    constructor ()
      ensures Valid() && View() == [] && !isZeroCopy && numValues == 0
    {
      pages, srcColumn, pageOffsets, isZeroCopy, numValues, cachedPageIdx := [], None, [], false, 0, 0;
    }

    method Append(v: u64)
      requires Valid() && !isZeroCopy
      modifies this`pages, this`numValues
      ensures Valid() && View() == old(View()) + [v] && numValues == old(numValues) + 1
    {
      AppendCell(pages, numValues, v);
      if |pages| == 0 || |pages[|pages| - 1]| >= VALUES_PER_PAGE {
        pages := pages + [[]];
      }
      pages := pages[|pages| - 1 := pages[|pages| - 1] + [v]];
      numValues := numValues + 1;
    }

    /** Reads row `row` whatever page was cached before. */
    method Get(row: nat) returns (v: u64)
      requires Valid() && row < numValues
      modifies this`cachedPageIdx
      ensures v == View()[row]
    {
      if isZeroCopy && srcColumn.Some? {
        var k := cachedPageIdx;
        RowWithin(row);
        hide *;
        if k < |pageOffsets| - 1 && row >= pageOffsets[k] && row < pageOffsets[k + 1] {
        } else if k + 1 < |pageOffsets| - 1 && row >= pageOffsets[k + 1] && row < pageOffsets[k + 2] {
          k := k + 1;
          cachedPageIdx := k;
        } else {
          k := FindPage(pageOffsets, row);
          cachedPageIdx := k;
        }
        v := ReadInPlace(k, row);
      } else {
        hide *;
        v := ReadCopied(row);
      }
    }

    /** A row of a source page. */
    method ReadInPlace(k: nat, row: nat) returns (v: u64)
      requires Valid() && row < numValues && isZeroCopy && srcColumn.Some?
      requires k + 1 < |pageOffsets| && pageOffsets[k] <= row < pageOffsets[k + 1]
      ensures |View()| == numValues && v == View()[row]
    {
      hide DecodeInt, ReadI32, NoNulls;
      var slot := row - pageOffsets[k];
      DirectRead(pageOffsets, srcColumn.value, k, row);
      v := MakeI32(ReadI32(srcColumn.value[k], INT_DATA + 4 * slot));
    }

    method ReadCopied(row: nat) returns (v: u64)
      requires Valid() && row < numValues && !(isZeroCopy && srcColumn.Some?)
      ensures |View()| == numValues && v == View()[row]
    {
      hide DecodeInt, NoNulls, InPlace, IsIndex;
      PackedCell(pages, numValues, row);
      v := pages[row / VALUES_PER_PAGE][row % VALUES_PER_PAGE];
    }

    lemma RowWithin(row: nat)
      requires Valid() && row < numValues && isZeroCopy && srcColumn.Some?
      ensures |pageOffsets| >= 2 && pageOffsets[0] <= row < pageOffsets[|pageOffsets| - 1]
    {
      hide DecodeInt, NoNulls;
      IndexTotal(pageOffsets, srcColumn.value);
    }

    /** `get_cached`: the same row with the caller's own page cache. */
    method GetCached(row: nat, pageCache: nat) returns (v: u64, newCache: nat)
      requires Valid() && row < numValues
      ensures v == View()[row]
    {
      newCache := pageCache;
      if isZeroCopy && srcColumn.Some? {
        var k := pageCache;
        RowWithin(row);
        hide *;
        if k >= |pageOffsets| - 1 { k := 0; }
        if row >= pageOffsets[k] && row < pageOffsets[k + 1] {
        } else if k + 1 < |pageOffsets| - 1 && row >= pageOffsets[k + 1] && row < pageOffsets[k + 2] {
          k := k + 1;
        } else {
          k := FindPage(pageOffsets, row);
        }
        newCache := k;
        v := ReadInPlace(k, row);
      } else {
        hide *;
        v := ReadCopied(row);
      }
    }
  }

  lemma AppendCell(pages: seq<seq<u64>>, n: nat, v: u64)
    requires Packed(pages, n)
    ensures var grown := if |pages| == 0 || |pages[|pages| - 1]| >= VALUES_PER_PAGE then pages + [[]] else pages;
      var after := grown[|grown| - 1 := grown[|grown| - 1] + [v]];
      Packed(after, n + 1) && Materialised(after, n + 1) == Materialised(pages, n) + [v]
  {
    var grown := if |pages| == 0 || |pages[|pages| - 1]| >= VALUES_PER_PAGE then pages + [[]] else pages;
    var after := grown[|grown| - 1 := grown[|grown| - 1] + [v]];
    assert |grown| - 1 == n / VALUES_PER_PAGE;
    assert |grown[|grown| - 1]| == n % VALUES_PER_PAGE;
    forall i | 0 <= i < n ensures CellAt(after, i) == CellAt(pages, i) {
      PackedCell(pages, n, i);
    }
    assert CellAt(after, n) == v;
  }
}
