/** INT32 pages: the decoder loop, the two encoders, and the round trip between them. */
module IntPages {
  import opened Bytes
  import opened Pages

  type IntRow = Option<i32>

  // ---------- decoding ----------

  const INT_DATA: nat := 4

  function IntCell(p: Page, i: nat, rank: nat): IntRow
    requires i < ReadU16(p, 0)
  {
    if RowBit(p, ReadU16(p, 0), i) then Some(ReadI32(p, INT_DATA + 4 * rank)) else None
  }

  /** The first `i` rows of a page: the k-th set bit owns the k-th value. */
  function IntRows(p: Page, i: nat): (rows: seq<IntRow>)
    requires i <= ReadU16(p, 0)
    ensures |rows| == i
  {
    if i == 0 then [] else
      var before := IntRows(p, i - 1);
      before + [IntCell(p, i - 1, |Values(before)|)]
  }

  function IntPageRows(p: Page): seq<IntRow> { IntRows(p, ReadU16(p, 0)) }

  function DecodeInt(pages: seq<Page>): seq<IntRow> {
    if pages == [] then [] else DecodeInt(pages[..|pages| - 1]) + IntPageRows(pages[|pages| - 1])
  }

  lemma {:induction false} IntRowsPrefix(p: Page, i: nat, j: nat)
    requires i <= j <= ReadU16(p, 0)
    ensures IntRows(p, i) <= IntRows(p, j)
  {
    hide *;
    if i < j {
      var k := j - 1;
      IntRowsPrefix(p, i, k);
      IntRowsSnoc(p, k);
    }
  }

  lemma {:induction false} DecodeIntPrefix(pages: seq<Page>, k: nat)
    requires k <= |pages|
    ensures DecodeInt(pages[..k]) <= DecodeInt(pages)
  {
    if k == |pages| {
      assert pages[..k] == pages;
    } else {
      DecodeIntPrefix(pages[..|pages| - 1], k);
      assert pages[..|pages| - 1][..k] == pages[..k];
    }
  }

  lemma IntRowsSnoc(p: Page, i: nat)
    requires i < ReadU16(p, 0)
    ensures IntRows(p, i + 1) == IntRows(p, i) + [IntCell(p, i, |Values(IntRows(p, i))|)]
  {
  }

  lemma {:induction false} NoIntRows(p: Page)
    ensures IntRows(p, 0) == [] && Values(IntRows(p, 0)) == []
  {
  }

  /** The row loop over one page. */
  method DecodeIntPage(p: Page, numRows: nat, ghost before: seq<IntRow>, rowIdx0: nat, results0: seq<IntRow>)
    returns (ok: bool, rowIdx: nat, results: seq<IntRow>)
    requires !Overfull(before, numRows) && results0 == Padded(before, numRows) && rowIdx0 == |before|
    ensures ok <==> !Overfull(before + IntPageRows(p), numRows)
    ensures ok ==> results == Padded(before + IntPageRows(p), numRows) && rowIdx == |before + IntPageRows(p)|
  {
    hide IntRows, Values, Padded, Overfull, RowBit, ReadI32, ReadU16;
    rowIdx, results := rowIdx0, results0;
    var n := ReadU16(p, 0);
    var dataIdx := 0;
    NoIntRows(p);
    assert before + [] == before;
    for i := 0 to n
      invariant dataIdx == |Values(IntRows(p, i))|
      invariant rowIdx == |before| + i
      invariant !Overfull(before + IntRows(p, i), numRows)
      invariant results == Padded(before + IntRows(p, i), numRows)
    {
      ghost var now := before + IntRows(p, i);
      ghost var cell := IntCell(p, i, dataIdx);
      IntRowsSnoc(p, i);
      assert before + IntRows(p, i + 1) == now + [cell];
      ValuesSnoc(IntRows(p, i), cell);
      StoreRow(now, cell, numRows);
      if RowBit(p, n, i) {
        if rowIdx >= numRows {
          IntRowsPrefix(p, i + 1, n);
          OverfullPrefix(before + IntRows(p, i + 1), before + IntPageRows(p), numRows);
          return false, rowIdx, results;
        }
        results := results[rowIdx := Some(ReadI32(p, INT_DATA + 4 * dataIdx))];
        dataIdx := dataIdx + 1;
      }
      rowIdx := rowIdx + 1;
    }
    ok := true;
  }

  /** One INT32 column of `from_columnar` and of `copy_scan`; `None` stands for the thrown error. */
  method DecodeIntColumn(pages: seq<Page>, numRows: nat) returns (r: Option<seq<IntRow>>)
    ensures r.None? <==> Overfull(DecodeInt(pages), numRows)
    ensures r.Some? ==> r.value == Padded(DecodeInt(pages), numRows)
  {
    var results: seq<IntRow> := seq(numRows, _ => None);
    var rowIdx := 0;
    for k := 0 to |pages|
      invariant rowIdx == |DecodeInt(pages[..k])|
      invariant !Overfull(DecodeInt(pages[..k]), numRows)
      invariant results == Padded(DecodeInt(pages[..k]), numRows)
    {
      assert pages[..k + 1][..k] == pages[..k];
      var ok;
      ok, rowIdx, results := DecodeIntPage(pages[k], numRows, DecodeInt(pages[..k]), rowIdx, results);
      if !ok {
        DecodeIntPrefix(pages, k + 1);
        OverfullPrefix(DecodeInt(pages[..k + 1]), DecodeInt(pages), numRows);
        return None;
      }
    }
    assert pages[..|pages|] == pages;
    return Some(results);
  }

  // ---------- what a page stores ----------

  /** The values are packed from byte 4 on. */
  ghost predicate IntsAt(p: seq<byte>, vs: seq<i32>) {
    forall k | 0 <= k < |vs| :: ReadI32(p, INT_DATA + 4 * k) == vs[k]
  }

  /** Header, bitmap and values of `rows` are all in place. */
  ghost predicate IntPageHolds(p: Page, rows: seq<IntRow>) {
    && ReadU16(p, 0) == |rows| && ReadU16(p, 2) == |Values(rows)|
    && BitsAt(p[PAGE_SIZE - BitmapSize(|rows|)..], rows)
    && IntsAt(p, Values(rows))
  }

  lemma {:induction false} IntRowsOfHeld(p: Page, rows: seq<IntRow>, i: nat)
    requires IntPageHolds(p, rows) && i <= |rows|
    ensures i <= ReadU16(p, 0) && IntRows(p, i) == rows[..i]
  {
    hide *;
    HeldCount(p, rows);
    NoIntRows(p);
    if i > 0 {
      IntRowsOfHeld(p, rows, i - 1);
      HeldCell(p, rows, i - 1);
      IntRowsSnoc(p, i - 1);
      assert rows[..i] == rows[..i - 1] + [rows[i - 1]];
    }
  }

  lemma HeldCount(p: Page, rows: seq<IntRow>)
    requires IntPageHolds(p, rows)
    ensures ReadU16(p, 0) == |rows|
  {
  }

  lemma HeldCell(p: Page, rows: seq<IntRow>, i: nat)
    requires IntPageHolds(p, rows) && i < |rows|
    ensures IntCell(p, i, |Values(rows[..i])|) == rows[i]
  {
    hide Bit, ReadI32;
    HeldBit(p, rows, i);
    ValueRank(rows, i);
  }

  lemma {:induction false} DecodeHeldPage(pages: seq<Page>, p: Page, rows: seq<IntRow>)
    requires IntPageHolds(p, rows)
    ensures DecodeInt(pages + [p]) == DecodeInt(pages) + rows
  {
    IntRowsOfHeld(p, rows, |rows|);
    assert (pages + [p])[..|pages|] == pages && rows[..|rows|] == rows;
  }

  /** Bytes outside the packed values do not matter. */
  lemma IntsKept(p: seq<byte>, q: seq<byte>, vs: seq<i32>)
    requires IntsAt(p, vs) && INT_DATA + 4 * |vs| <= |p| == |q|
    requires p[INT_DATA..INT_DATA + 4 * |vs|] == q[INT_DATA..INT_DATA + 4 * |vs|]
    ensures IntsAt(q, vs)
  {
    forall k | 0 <= k < |vs| ensures ReadI32(q, INT_DATA + 4 * k) == vs[k] {
      SameWord(p, q, INT_DATA, INT_DATA + 4 * |vs|, INT_DATA + 4 * k);
    }
  }

  lemma IntsSnoc(p: seq<byte>, vs: seq<i32>, v: i32)
    requires IntsAt(p, vs) && ReadI32(p, INT_DATA + 4 * |vs|) == v
    ensures IntsAt(p, vs + [v])
  {
    hide ReadI32;
  }

  lemma SameWord(p: seq<byte>, q: seq<byte>, lo: nat, hi: nat, off: nat)
    requires lo <= off <= off + 4 <= hi <= |p| == |q| && p[lo..hi] == q[lo..hi]
    ensures ReadI32(p, off) == ReadI32(q, off)
  {
    assert forall i | lo <= i < hi :: p[i] == p[lo..hi][i - lo] && q[i] == q[lo..hi][i - lo];
  }

  /** A page under construction: `rows` are in the value area and the bitmap buffer. */
  ghost predicate IntPageState(page: seq<byte>, bitmap: seq<byte>, numRows: nat, dataEnd: nat, rows: seq<IntRow>) {
    && |page| == PAGE_SIZE && |bitmap| == PAGE_SIZE
    && numRows == |rows|
    && dataEnd == INT_DATA + 4 * |Values(rows)|
    && dataEnd + BitmapSize(numRows) <= PAGE_SIZE
    && BitsAt(bitmap, rows)
    && IntsAt(page, Values(rows))
  }

  lemma EmptyIntPage(page: seq<byte>, bitmap: seq<byte>)
    requires |page| == PAGE_SIZE && |bitmap| == PAGE_SIZE
    ensures IntPageState(page, bitmap, 0, INT_DATA, [])
  {
  }

  /** 65504 rows at most, so the 16-bit header word never wraps. */
  lemma IntPageRowLimit(page: seq<byte>, bitmap: seq<byte>, numRows: nat, dataEnd: nat, rows: seq<IntRow>)
    requires IntPageState(page, bitmap, numRows, dataEnd, rows)
    ensures numRows <= 65504 && INT_DATA <= dataEnd && (dataEnd - INT_DATA) / 4 < 2047
  {
  }

  /** Store one more value and its bit. */
  method StoreInt(page: array<byte>, bitmap: array<byte>, numRows: nat, dataEnd: nat, value: i32,
                  ghost rows: seq<IntRow>)
    requires page != bitmap && IntPageState(page[..], bitmap[..], numRows, dataEnd, rows)
    requires dataEnd + 4 + BitmapSize(numRows + 1) <= PAGE_SIZE
    modifies page, bitmap
    ensures IntPageState(page[..], bitmap[..], numRows + 1, dataEnd + 4, rows + [Some(value)])
  {
    hide BitsAt, IntsAt, Values, ReadI32;
    ghost var before := page[..];
    WriteI32(page, dataEnd, value);
    IntsKept(before, page[..], Values(rows));
    IntsSnoc(page[..], Values(rows), value);
    PushBit(bitmap, numRows, true, rows, Some(value));
    ValuesSnoc(rows, Some(value));
  }

  method StoreIntNull(bitmap: array<byte>, numRows: nat, ghost page: seq<byte>, ghost dataEnd: nat,
                      ghost rows: seq<IntRow>)
    requires IntPageState(page, bitmap[..], numRows, dataEnd, rows)
    requires dataEnd + BitmapSize(numRows + 1) <= PAGE_SIZE
    modifies bitmap
    ensures IntPageState(page, bitmap[..], numRows + 1, dataEnd, rows + [None])
  {
    hide BitsAt, IntsAt, Values;
    PushBit(bitmap, numRows, false, rows, None);
    ValuesSnoc(rows, None);
  }

  /** Header and bitmap complete the page. */
  method SealIntPage(page: array<byte>, bitmap: seq<byte>, numRows: nat, dataEnd: nat, ghost rows: seq<IntRow>)
    requires IntPageState(page[..], bitmap, numRows, dataEnd, rows)
    modifies page
    ensures IntPageHolds(page[..], rows)
  {
    var size := BitmapSize(numRows);
    ghost var before := page[..];
    WriteU16(page, 0, numRows);
    WriteU16(page, 2, (dataEnd - INT_DATA) / 4);
    ghost var header := page[..2];
    CopyInto(page, PAGE_SIZE - size, bitmap[..size]);
    assert page[..2] == header;
    assert page[..][PAGE_SIZE - size..] == bitmap[..size];
    IntsKept(before, page[..], Values(rows));
  }

  // ---------- encoding: the streaming inserter ----------

  /** `ColumnInserter<int32_t>`: values grow up from byte 4, the bitmap is copied down from the page end. */
  class IntInserter {
    var pages: seq<Page>
    var page: array<byte>
    var bitmap: array<byte>
    var numRows: nat
    var dataEnd: nat
    ghost var rows: seq<IntRow>     // rows of the page being filled

    ghost predicate Valid()
      reads this, page, bitmap
    {
      page != bitmap && IntPageState(page[..], bitmap[..], numRows, dataEnd, rows)
    }

    /** Every row inserted so far. */
    ghost function Contents(): seq<IntRow>
      reads this
    {
      DecodeInt(pages) + rows
    }

    constructor ()
      ensures Valid() && Contents() == [] && fresh(page) && fresh(bitmap)
    {
      pages, numRows, dataEnd := [], 0, INT_DATA;
      page, bitmap := new byte[PAGE_SIZE], new byte[PAGE_SIZE];
      rows := [];
    }

    method SavePage()
      requires Valid()
      modifies this, page
      ensures Valid() && Contents() == old(Contents())
      ensures rows == [] && bitmap == old(bitmap) && fresh(page)
    {
      var filled := page;
      assert filled.Length == PAGE_SIZE && bitmap.Length == PAGE_SIZE;
      hide IntPageState, IntPageHolds, DecodeInt;
      SealIntPage(filled, bitmap[..], numRows, dataEnd, rows);
      DecodeHeldPage(pages, filled[..], rows);
      assert DecodeInt(pages + [filled[..]]) + [] == Contents();
      pages := pages + [filled[..]];
      rows, numRows, dataEnd := [], 0, INT_DATA;
      page := new byte[PAGE_SIZE];
      EmptyIntPage(page[..], bitmap[..]);
    }

    /** The space test of both insertions, for `extra` more value bytes and one more bitmap bit. */
    method MakeRoom(extra: nat)
      requires Valid() && extra <= 4
      modifies this, page
      ensures Valid() && Contents() == old(Contents())
      ensures dataEnd + extra + BitmapSize(numRows + 1) <= PAGE_SIZE
      ensures old(dataEnd + numRows / 8 + 1) + extra <= 8192 ==>
        pages == old(pages) && numRows == old(numRows) && page == old(page)
      ensures bitmap == old(bitmap) && (page == old(page) || fresh(page))
    {
      hide DecodeInt, BitsAt, IntsAt, Values;
      if dataEnd + extra + numRows / 8 + 1 > PAGE_SIZE {
        SavePage();
      }
    }

    method Insert(value: i32)
      requires Valid()
      modifies this, page, bitmap
      ensures Valid() && Contents() == old(Contents()) + [Some(value)]
      ensures bitmap == old(bitmap) && (page == old(page) || fresh(page))
    {
      hide DecodeInt, IntPageState;
      MakeRoom(4);
      StoreInt(page, bitmap, numRows, dataEnd, value, rows);
      numRows, dataEnd := numRows + 1, dataEnd + 4;
      assert DecodeInt(pages) + (rows + [Some(value)]) == Contents() + [Some(value)];
      rows := rows + [Some(value)];
    }

    method InsertNull()
      requires Valid()
      modifies this, page, bitmap
      ensures Valid() && Contents() == old(Contents()) + [None]
      ensures bitmap == old(bitmap) && (page == old(page) || fresh(page))
    {
      hide DecodeInt, IntPageState;
      MakeRoom(0);
      StoreIntNull(bitmap, numRows, page[..], dataEnd, rows);
      numRows := numRows + 1;
      assert DecodeInt(pages) + (rows + [None]) == Contents() + [None];
      rows := rows + [None];
    }

    method Finalize()
      requires Valid()
      modifies this, page
      ensures DecodeInt(pages) == old(Contents())
    {
      if numRows != 0 {
        SavePage();
      }
    }
  }

  // ---------- encoding: the batch encoder ----------

  method PackInts(page: array<byte>, data: seq<i32>)
    requires INT_DATA + 4 * |data| <= page.Length
    modifies page
    ensures IntsAt(page[..], data)
  {
    for k := 0 to |data|
      invariant IntsAt(page[..], data[..k])
    {
      ghost var before := page[..];
      WriteI32(page, INT_DATA + 4 * k, data[k]);
      IntsKept(before, page[..], data[..k]);
    }
  }

  method SaveIntPage(numRows: nat, data: seq<i32>, bitmap: seq<byte>, ghost rows: seq<IntRow>) returns (p: Page)
    requires numRows == |rows| && data == Values(rows) && BitsAt(bitmap, rows) && |bitmap| == BitmapSize(|rows|)
    requires INT_DATA + 4 * |data| + |bitmap| <= PAGE_SIZE
    ensures IntPageHolds(p, rows)
  {
    var page := new byte[PAGE_SIZE];
    PackInts(page, data);
    ghost var before := page[..];
    WriteU16(page, 0, numRows);
    WriteU16(page, 2, |data|);
    ghost var header := page[..2];
    CopyInto(page, PAGE_SIZE - |bitmap|, bitmap);
    p := page[..];
    assert p[..2] == header && p[PAGE_SIZE - |bitmap|..] == bitmap;
    IntsKept(before, p, data);
  }

  lemma EmptyColumn()
    ensures DecodeInt([]) == [] && Values<i32>([]) == [] && BitsAt<i32>([], [])
  {
  }

  /** The INT32 branch of `to_columnar`. */
  method EncodeIntColumn(column: seq<IntRow>) returns (pages: seq<Page>)
    ensures DecodeInt(pages) == column
  {
    hide DecodeInt, Values, BitsAt, IntPageHolds, IntsAt;
    var numRows: nat, data: seq<i32>, bitmap: seq<byte> := 0, [], [];
    ghost var rows: seq<IntRow> := [];
    pages := [];
    EmptyColumn();
    for n := 0 to |column|
      invariant DecodeInt(pages) + rows == column[..n]
      invariant numRows == |rows| && data == Values(rows) && BitsAt(bitmap, rows) && |bitmap| == BitmapSize(|rows|)
      invariant INT_DATA + 4 * |data| + |bitmap| <= PAGE_SIZE
    {
      var extra := if column[n].Some? then 1 else 0;
      if INT_DATA + (|data| + extra) * 4 + (numRows / 8 + 1) > PAGE_SIZE {
        var p := SaveIntPage(numRows, data, bitmap, rows);
        DecodeHeldPage(pages, p, rows);
        pages := pages + [p];
        numRows, data, bitmap, rows := 0, [], [], [];
      }
      bitmap := GrowBit(bitmap, numRows, column[n].Some?, rows, column[n]);
      ValuesSnoc(rows, column[n]);
      if column[n].Some? {
        data := data + [column[n].value];
      }
      assert column[..n + 1] == DecodeInt(pages) + (rows + [column[n]]);
      numRows, rows := numRows + 1, rows + [column[n]];
    }
    assert column[..|column|] == column;
    if numRows != 0 {
      var p := SaveIntPage(numRows, data, bitmap, rows);
      DecodeHeldPage(pages, p, rows);
      pages := pages + [p];
    }
  }

  /** Anything the inserter wrote reads back as it was inserted, whatever row count the reader declares. */
  method RoundTrip(column: seq<IntRow>) returns (back: Option<seq<IntRow>>)
    ensures back == Some(column)
  {
    hide IntInserter.Valid, IntInserter.Contents, DecodeInt;
    var inserter := new IntInserter();
    for n := 0 to |column|
      invariant inserter.Valid() && inserter.Contents() == column[..n]
      invariant fresh(inserter) && fresh(inserter.page) && fresh(inserter.bitmap)
    {
      match column[n] {
        case Some(v) => inserter.Insert(v);
        case None => inserter.InsertNull();
      }
    }
    inserter.Finalize();
    assert column[..|column|] == column && Padded(column, |column|) == column;
    back := DecodeIntColumn(inserter.pages, |column|);
  }
}
