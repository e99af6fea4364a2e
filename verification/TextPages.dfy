/** VARCHAR pages: offsets, characters and bitmap in normal pages; long strings split over special pages. */
module TextPages {
  import opened Bytes
  import opened Pages

  type TextRow = Option<str>

  const OFFSETS: nat := 4
  const LONG_FIRST: u16 := 0xffff
  const LONG_NEXT: u16 := 0xfffe
  const LONG_LIMIT: nat := PAGE_SIZE - 7
  const CHUNK: nat := PAGE_SIZE - 4

  // ---------- decoding ----------

  function Slice(p: seq<byte>, lo: nat, hi: nat): str {
    if lo <= hi <= |p| then p[lo..hi] else []
  }

  /** The k-th string of a normal page: offsets are ends, relative to the first character. */
  function TextAt(p: Page, k: nat): str {
    var base := OFFSETS + 2 * ReadU16(p, 2);
    var start := if k == 0 then 0 else ReadU16(p, OFFSETS + 2 * (k - 1));
    Slice(p, base + start, base + ReadU16(p, OFFSETS + 2 * k))
  }

  function TextCell(p: Page, i: nat, rank: nat): TextRow
    requires i < ReadU16(p, 0)
  {
    if RowBit(p, ReadU16(p, 0), i) then Some(TextAt(p, rank)) else None
  }

  function TextRows(p: Page, i: nat): (rows: seq<TextRow>)
    requires i <= ReadU16(p, 0)
    ensures |rows| == i
  {
    if i == 0 then [] else
      var before := TextRows(p, i - 1);
      before + [TextCell(p, i - 1, |Values(before)|)]
  }

  /** The characters of a long-string page. */
  function Chunk(p: Page): str { Slice(p, OFFSETS, OFFSETS + ReadU16(p, 2)) }

  /** Reading one more page; `None` is the error "0xfffe must follow a string". */
  function ReadPage(rows: seq<TextRow>, p: Page): Option<seq<TextRow>> {
    var tag := ReadU16(p, 0);
    if tag == LONG_FIRST then Some(rows + [Some(Chunk(p))])
    else if tag == LONG_NEXT then
      if rows != [] && rows[|rows| - 1].Some? then
        Some(rows[|rows| - 1 := Some(rows[|rows| - 1].value + Chunk(p))])
      else None
    else Some(rows + TextRows(p, tag))
  }

  function DecodeText(pages: seq<Page>): Option<seq<TextRow>> {
    if pages == [] then Some([]) else
      match DecodeText(pages[..|pages| - 1])
      case None => None
      case Some(rows) => ReadPage(rows, pages[|pages| - 1])
  }

  lemma {:induction false} DecodeTextSnoc(pages: seq<Page>, p: Page)
    requires DecodeText(pages).Some?
    ensures DecodeText(pages + [p]) == ReadPage(DecodeText(pages).value, p)
  {
    assert (pages + [p])[..|pages|] == pages;
  }

  // ---------- what a normal page stores ----------

  function Text(vs: seq<str>): str {
    if vs == [] then [] else Text(vs[..|vs| - 1]) + vs[|vs| - 1]
  }

  lemma {:induction false} TextSnoc(vs: seq<str>, v: str)
    ensures Text(vs + [v]) == Text(vs) + v
  {
    assert (vs + [v])[..|vs|] == vs;
  }

  /** Where the k-th string lies in the text. */
  lemma TextSlice(vs: seq<str>, k: nat)
    requires k < |vs|
    ensures |Text(vs[..k])| <= |Text(vs[..k + 1])| <= |Text(vs)|
    ensures Text(vs)[|Text(vs[..k])|..|Text(vs[..k + 1])|] == vs[k]
  {
    assert vs[..k + 1][..k] == vs[..k];
    if k + 1 == |vs| {
      assert vs[..k + 1] == vs;
    } else {
      TextSlice(vs[..|vs| - 1], k);
      assert vs[..|vs| - 1][..k] == vs[..k] && vs[..|vs| - 1][..k + 1] == vs[..k + 1];
    }
  }

  function EndOf(vs: seq<str>, k: nat): nat
    requires k < |vs|
  {
    |Text(vs[..k + 1])|
  }

  ghost predicate OffsetsAt(p: seq<byte>, vs: seq<str>) {
    forall k | 0 <= k < |vs| :: ReadU16(p, OFFSETS + 2 * k) == EndOf(vs, k)
  }

  ghost predicate TextPageHolds(p: Page, rows: seq<TextRow>) {
    var vs := Values(rows);
    var base := OFFSETS + 2 * |vs|;
    && ReadU16(p, 0) == |rows| < LONG_NEXT
    && ReadU16(p, 2) == |vs|
    && BitsAt(p[PAGE_SIZE - BitmapSize(|rows|)..], rows)
    && OffsetsAt(p, vs)
    && base + |Text(vs)| <= PAGE_SIZE
    && p[base..base + |Text(vs)|] == Text(vs)
  }

  lemma {:induction false} HeldText(p: Page, rows: seq<TextRow>, k: nat)
    requires TextPageHolds(p, rows) && k < |Values(rows)|
    ensures TextAt(p, k) == Values(rows)[k]
  {
    hide BitsAt, ReadU16, Values, Text, OffsetsAt, TextAt;
    var vs := Values(rows);
    var base := OFFSETS + 2 * |vs|;
    TextSlice(vs, k);
    var start, end := |Text(vs[..k])|, |Text(vs[..k + 1])|;
    TextBounds(p, vs, k);
    SubSlice(p, base, |Text(vs)|, start, end);
  }

  lemma TextBounds(p: Page, vs: seq<str>, k: nat)
    requires OffsetsAt(p, vs) && k < |vs| && ReadU16(p, 2) == |vs| && OFFSETS + 2 * |vs| + |Text(vs)| <= PAGE_SIZE
    requires |Text(vs[..k])| <= |Text(vs[..k + 1])| <= |Text(vs)|
    ensures var base := OFFSETS + 2 * |vs|;
      TextAt(p, k) == p[base + |Text(vs[..k])|..base + |Text(vs[..k + 1])|]
  {
    EmptyText();
    assert vs[..0] == [];
    hide ReadU16, Text, Values;
    assert ReadU16(p, OFFSETS + 2 * k) == EndOf(vs, k);
    if k > 0 {
      assert ReadU16(p, OFFSETS + 2 * (k - 1)) == EndOf(vs, k - 1);
    }
  }

  lemma SubSlice(p: seq<byte>, base: nat, n: nat, start: nat, end: nat)
    requires start <= end <= n && base + n <= |p|
    ensures p[base + start..base + end] == p[base..base + n][start..end]
  {
    var whole := p[base..base + n];
    forall i | 0 <= i < end - start ensures p[base + start..base + end][i] == whole[start..end][i] {
      assert whole[start..end][i] == whole[start + i] == p[base + (start + i)];
    }
  }

  lemma EmptyText()
    ensures Text([]) == [] && Values<str>([]) == []
  {
  }

  lemma HeldCell(p: Page, rows: seq<TextRow>, i: nat)
    requires TextPageHolds(p, rows) && i < |rows|
    ensures TextCell(p, i, |Values(rows[..i])|) == rows[i]
  {
    hide Text, TextAt, Values, OffsetsAt;
    HeldBit(p, rows, i);
    ValueRank(rows, i);
    if rows[i].Some? {
      HeldText(p, rows, |Values(rows[..i])|);
    }
  }

  lemma {:induction false} TextRowsOfHeld(p: Page, rows: seq<TextRow>, i: nat)
    requires TextPageHolds(p, rows) && i <= |rows|
    ensures i <= ReadU16(p, 0) && TextRows(p, i) == rows[..i]
  {
    hide *;
    HeldCount(p, rows);
    NoTextRows(p);
    if i > 0 {
      TextRowsOfHeld(p, rows, i - 1);
      HeldCell(p, rows, i - 1);
      TextRowsSnoc(p, i - 1);
      assert rows[..i] == rows[..i - 1] + [rows[i - 1]];
    }
  }

  lemma HeldCount(p: Page, rows: seq<TextRow>)
    requires TextPageHolds(p, rows)
    ensures ReadU16(p, 0) == |rows|
  {
  }

  lemma {:induction false} DecodeHeldPage(pages: seq<Page>, p: Page, rows: seq<TextRow>)
    requires DecodeText(pages).Some? && TextPageHolds(p, rows)
    ensures DecodeText(pages + [p]) == Some(DecodeText(pages).value + rows)
  {
    DecodeTextSnoc(pages, p);
    TextRowsOfHeld(p, rows, |rows|);
    assert rows[..|rows|] == rows;
  }

  // ---------- the decoder loops ----------

  lemma TextRowsSnoc(p: Page, i: nat)
    requires i < ReadU16(p, 0)
    ensures TextRows(p, i + 1) == TextRows(p, i) + [TextCell(p, i, |Values(TextRows(p, i))|)]
  {
  }

  lemma {:induction false} NoTextRows(p: Page)
    ensures TextRows(p, 0) == [] && Values(TextRows(p, 0)) == []
  {
  }

  lemma {:induction false} TextRowsPrefix(p: Page, i: nat, j: nat)
    requires i <= j <= ReadU16(p, 0)
    ensures TextRows(p, i) <= TextRows(p, j)
  {
    hide *;
    if i < j {
      var k := j - 1;
      TextRowsPrefix(p, i, k);
      TextRowsSnoc(p, k);
    }
  }

  /** Later pages never take a row away, nor its being non-NULL. */
  lemma {:induction false} OverfullStays(pages: seq<Page>, k: nat, n: nat)
    requires k <= |pages| && DecodeText(pages).Some?
    ensures DecodeText(pages[..k]).Some?
    ensures Overfull(DecodeText(pages[..k]).value, n) ==> Overfull(DecodeText(pages).value, n)
  {
    if k == |pages| {
      assert pages[..k] == pages;
    } else {
      var shorter := pages[..|pages| - 1];
      OverfullStays(shorter, k, n);
      assert shorter[..k] == pages[..k];
      var rows, more := DecodeText(shorter).value, DecodeText(pages).value;
      assert forall i | 0 <= i < |rows| && rows[i].Some? :: i < |more| && more[i].Some?;
    }
  }

  /** The row loop over one normal page. */
  method DecodeTextPage(p: Page, numRows: nat, ghost before: seq<TextRow>, rowIdx0: nat, results0: seq<TextRow>)
    returns (ok: bool, rowIdx: nat, results: seq<TextRow>)
    requires ReadU16(p, 0) < LONG_NEXT
    requires !Overfull(before, numRows) && results0 == Padded(before, numRows) && rowIdx0 == |before|
    ensures ok <==> !Overfull(before + TextRows(p, ReadU16(p, 0)), numRows)
    ensures ok ==> results == Padded(before + TextRows(p, ReadU16(p, 0)), numRows)
    ensures ok ==> rowIdx == |before + TextRows(p, ReadU16(p, 0))|
  {
    hide TextRows, Values, Padded, Overfull, RowBit, Slice, ReadU16;
    rowIdx, results := rowIdx0, results0;
    var n := ReadU16(p, 0);
    var base, start, dataIdx := OFFSETS + 2 * ReadU16(p, 2), 0, 0;
    NoTextRows(p);
    assert before + [] == before;
    for i := 0 to n
      invariant dataIdx == |Values(TextRows(p, i))|
      invariant start == if dataIdx == 0 then 0 else ReadU16(p, OFFSETS + 2 * (dataIdx - 1))
      invariant rowIdx == |before| + i
      invariant !Overfull(before + TextRows(p, i), numRows)
      invariant results == Padded(before + TextRows(p, i), numRows)
    {
      ghost var now := before + TextRows(p, i);
      ghost var cell := TextCell(p, i, dataIdx);
      TextRowsSnoc(p, i);
      assert before + TextRows(p, i + 1) == now + [cell];
      ValuesSnoc(TextRows(p, i), cell);
      StoreRow(now, cell, numRows);
      if RowBit(p, n, i) {
        var offset := ReadU16(p, OFFSETS + 2 * dataIdx);
        var value := Slice(p, base + start, base + offset);
        dataIdx := dataIdx + 1;
        start := offset;
        if rowIdx >= numRows {
          TextRowsPrefix(p, i + 1, n);
          OverfullPrefix(before + TextRows(p, i + 1), before + TextRows(p, n), numRows);
          return false, rowIdx, results;
        }
        results := results[rowIdx := Some(value)];
      }
      rowIdx := rowIdx + 1;
    }
    ok := true;
  }

  lemma EmptyRows(n: nat)
    ensures Padded<str>([], n) == seq(n, _ => None) && !Overfull<str>([], n)
    ensures DecodeText([]) == Some([])
  {
  }

  /** A continuation page rewrites the last row; without overflow that row is in range or NULL. */
  lemma ExtendLast(rows: seq<TextRow>, chunk: str, n: nat)
    requires rows != [] && !Overfull(rows, n)
    ensures |rows| > n ==> rows[|rows| - 1].None?
    ensures |rows| <= n ==> Padded(rows, n)[|rows| - 1] == rows[|rows| - 1]
    ensures |rows| <= n && rows[|rows| - 1].Some? ==>
      var last := Some(rows[|rows| - 1].value + chunk);
      && !Overfull(rows[|rows| - 1 := last], n)
      && Padded(rows[|rows| - 1 := last], n) == Padded(rows, n)[|rows| - 1 := last]
  {
  }

  /** One VARCHAR column of `from_columnar` and of `copy_scan`; `None` stands for a thrown error. */
  method DecodeTextColumn(pages: seq<Page>, numRows: nat) returns (r: Option<seq<TextRow>>)
    ensures r.None? <==> DecodeText(pages).None? || Overfull(DecodeText(pages).value, numRows)
    ensures r.Some? ==> r.value == Padded(DecodeText(pages).value, numRows)
  {
    hide TextRows, Overfull, Slice;
    var results: seq<TextRow> := seq(numRows, _ => None);
    var rowIdx := 0;
    EmptyRows(numRows);
    for k := 0 to |pages|
      invariant DecodeText(pages[..k]).Some?
      invariant rowIdx == |DecodeText(pages[..k]).value|
      invariant !Overfull(DecodeText(pages[..k]).value, numRows)
      invariant results == Padded(DecodeText(pages[..k]).value, numRows)
    {
      var p := pages[k];
      ghost var before := DecodeText(pages[..k]).value;
      assert pages[..k + 1] == pages[..k] + [p];
      DecodeTextSnoc(pages[..k], p);
      if DecodeText(pages).Some? {
        OverfullStays(pages, k + 1, numRows);
      }
      var tag := ReadU16(p, 0);
      if tag == LONG_FIRST {
        StoreRow(before, Some(Chunk(p)), numRows);
        if rowIdx >= numRows {
          return None;
        }
        results := results[rowIdx := Some(Chunk(p))];
        rowIdx := rowIdx + 1;
      } else if tag == LONG_NEXT {
        if before != [] {
          ExtendLast(before, Chunk(p), numRows);
        }
        if rowIdx == 0 || rowIdx > numRows || results[rowIdx - 1].None? {
          return None;
        }
        results := results[rowIdx - 1 := Some(results[rowIdx - 1].value + Chunk(p))];
      } else {
        var ok;
        ok, rowIdx, results := DecodeTextPage(p, numRows, before, rowIdx, results);
        if !ok {
          return None;
        }
      }
    }
    assert pages[..|pages|] == pages;
    return Some(results);
  }

  // ---------- how columns are laid out ----------

  function Tag(p: Page): u16 { ReadU16(p, 0) }

  predicate IsLong(p: Page) { Tag(p) == LONG_FIRST || Tag(p) == LONG_NEXT }

  /** As written by the encoders: a continuation follows a long-string page, a first chunk is not empty,
      and a normal page has as many offsets as set bits. */
  ghost predicate WellFormedText(pages: seq<Page>) {
    && (forall k | 0 <= k < |pages| && Tag(pages[k]) == LONG_NEXT :: k > 0 && IsLong(pages[k - 1]))
    && (forall k | 0 <= k < |pages| && Tag(pages[k]) == LONG_FIRST :: Chunk(pages[k]) != [])
    && (forall k | 0 <= k < |pages| && !IsLong(pages[k]) ::
          |Values(TextRows(pages[k], Tag(pages[k])))| == ReadU16(pages[k], 2))
  }

  /** No long string directly after another one. */
  ghost predicate NoAdjacentLong(pages: seq<Page>) {
    forall k | 0 <= k && k + 1 < |pages| && IsLong(pages[k]) :: Tag(pages[k + 1]) != LONG_FIRST
  }

  /** A string that does not fit an empty page: header, one offset, its characters and one byte of bitmap. */
  predicate IsLongRow(row: TextRow) { row.Some? && 4 + 2 + |row.value| + 1 > 8192 }

  /** The encoders' test. */
  predicate TakesPages(row: TextRow) { row.Some? && |row.value| > LONG_LIMIT }

  /** It holds for exactly the strings that do not fit an empty page: 8185 characters still do. */
  lemma LimitIsExact(row: TextRow)
    ensures TakesPages(row) <==> IsLongRow(row)
    ensures IsLongRow(row) <==> row.Some? && |row.value| > 8185
  {
  }

  function LongStrings(rows: seq<TextRow>): nat {
    if rows == [] then 0 else LongStrings(rows[..|rows| - 1]) + if IsLongRow(rows[|rows| - 1]) then 1 else 0
  }

  /** A page whose row count reads 0xffff. */
  predicate LongStart(p: Page) { p[0] == 0xff && p[1] == 0xff }

  function LongStarts(pages: seq<Page>): nat {
    if pages == [] then 0 else LongStarts(pages[..|pages| - 1]) + if LongStart(pages[|pages| - 1]) then 1 else 0
  }

  ghost predicate AllFit(rows: seq<TextRow>) { forall i | 0 <= i < |rows| && rows[i].Some? :: |rows[i].value| <= 8185 }

  /** No row count reads 0xffff or 0xfffe. */
  ghost predicate AllNormal(pages: seq<Page>) {
    forall k | 0 <= k < |pages| :: !(pages[k][1] == 0xff && pages[k][0] >= 0xfe)
  }

  /** How an encoder lays out a column: each string that does not fit an empty page starts a run of long-string pages,
      and no other does. */
  ghost predicate LaidOut(pages: seq<Page>, rows: seq<TextRow>) {
    && WellFormedText(pages)
    && (NoAdjacentLong(pages) <==> NoLongPairs(rows))
    && LongStarts(pages) == LongStrings(rows)
    && (AllNormal(pages) <==> AllFit(rows))
  }

  lemma TagBytes(p: Page)
    ensures Tag(p) == LONG_FIRST <==> LongStart(p)
    ensures IsLong(p) <==> p[1] == 0xff && p[0] >= 0xfe
  {
  }

  lemma {:induction false} LongStartsSnoc(pages: seq<Page>, p: Page)
    ensures LongStarts(pages + [p]) == LongStarts(pages) + if Tag(p) == LONG_FIRST then 1 else 0
  {
    TagBytes(p);
    assert (pages + [p])[..|pages|] == pages;
  }

  lemma {:induction false} LongStringsSnoc(rows: seq<TextRow>, row: TextRow)
    ensures LongStrings(rows + [row]) == LongStrings(rows) + if IsLongRow(row) then 1 else 0
  {
    assert (rows + [row])[..|rows|] == rows;
  }

  lemma {:induction false} NoLongStrings(rows: seq<TextRow>)
    ensures LongStrings(rows) == 0 <==> AllFit(rows)
  {
    if rows != [] {
      var n := |rows| - 1;
      NoLongStrings(rows[..n]);
      LimitIsExact(rows[n]);
      hide IsLongRow;
      assert forall i | 0 <= i < n :: rows[..n][i] == rows[i];
    }
  }

  lemma {:induction false} NoLongStarts(pages: seq<Page>)
    requires WellFormedText(pages)
    ensures LongStarts(pages) == 0 <==> AllNormal(pages)
  {
    hide ReadU16, Chunk, TextRows, Values;
    if pages != [] {
      var n := |pages| - 1;
      assert forall i | 0 <= i < n :: pages[..n][i] == pages[i];
      NoLongStarts(pages[..n]);
      TagBytes(pages[n]);
      if n > 0 { TagBytes(pages[n - 1]); }
    }
  }

  /** No long string directly after another one, in the column. */
  ghost predicate NoLongPairs(rows: seq<TextRow>) {
    forall i | 0 <= i && i + 1 < |rows| && IsLongRow(rows[i]) :: !IsLongRow(rows[i + 1])
  }

  ghost predicate EndsLong(pages: seq<Page>) { pages != [] && IsLong(pages[|pages| - 1]) }

  ghost predicate LastLong(rows: seq<TextRow>) { rows != [] && IsLongRow(rows[|rows| - 1]) }

  /** The pages written so far, with `pending` rows for the next one, mirror the long strings of the column. */
  ghost predicate Laid(pages: seq<Page>, pending: nat, done: seq<TextRow>) {
    && WellFormedText(pages)
    && (NoAdjacentLong(pages) <==> NoLongPairs(done))
    && (EndsLong(pages) && pending == 0 <==> LastLong(done))
    && LongStarts(pages) == LongStrings(done)
  }

  lemma LaidIsLaidOut(pages: seq<Page>, pending: nat, done: seq<TextRow>)
    requires Laid(pages, pending, done)
    ensures LaidOut(pages, done)
  {
    hide WellFormedText, NoAdjacentLong, NoLongPairs, AllNormal, AllFit;
    NoLongStarts(pages);
    NoLongStrings(done);
  }

  lemma LaidRow(pages: seq<Page>, pending: nat, done: seq<TextRow>, row: TextRow, next: nat)
    requires Laid(pages, pending, done) && !IsLongRow(row) && next > 0
    ensures Laid(pages, next, done + [row])
  {
    hide WellFormedText, NoAdjacentLong, IsLongRow, LongStarts, LongStrings;
    LongPairsSnoc(done, row);
    LongStringsSnoc(done, row);
  }

  lemma LongPairsSnoc(done: seq<TextRow>, row: TextRow)
    ensures NoLongPairs(done + [row]) <==> NoLongPairs(done) && !(LastLong(done) && IsLongRow(row))
  {
    var more := done + [row];
    assert forall i | 0 <= i < |done| :: more[i] == done[i];
    assert more[|done|] == row;
    if NoLongPairs(more) && LastLong(done) {
      assert IsLongRow(more[|done| - 1]) && !IsLongRow(more[|done| - 1 + 1]);
    }
    if NoLongPairs(more) {
      forall i | 0 <= i && i + 1 < |done| && IsLongRow(done[i]) ensures !IsLongRow(done[i + 1]) {
        assert more[i + 1] == done[i + 1];
      }
    }
  }

  lemma LaidPage(pages: seq<Page>, pending: nat, done: seq<TextRow>, p: Page, rows: seq<TextRow>)
    requires Laid(pages, pending, done) && pending > 0 && TextPageHolds(p, rows)
    ensures Laid(pages + [p], 0, done)
  {
    NormalPage(p, rows);
    hide TextPageHolds, TextRows, Values, ReadU16, LongStarts, LongStrings;
    AdjacentSnoc(pages, p);
    FormedSnoc(pages, p);
    LongStartsSnoc(pages, p);
  }

  lemma {:induction false} NormalPage(p: Page, rows: seq<TextRow>)
    requires TextPageHolds(p, rows)
    ensures !IsLong(p) && |Values(TextRows(p, Tag(p)))| == ReadU16(p, 2)
  {
    hide Values, TextRows, BitsAt, OffsetsAt, Text;
    TextRowsOfHeld(p, rows, |rows|);
    assert rows[..|rows|] == rows;
  }

  lemma AdjacentSnoc(pages: seq<Page>, p: Page)
    ensures NoAdjacentLong(pages + [p]) <==> NoAdjacentLong(pages) && !(EndsLong(pages) && Tag(p) == LONG_FIRST)
  {
    hide ReadU16;
    var more := pages + [p];
    assert forall i | 0 <= i < |pages| :: more[i] == pages[i];
    assert more[|pages|] == p;
    if NoAdjacentLong(more) && EndsLong(pages) {
      assert IsLong(more[|pages| - 1]) && Tag(more[|pages| - 1 + 1]) != LONG_FIRST;
    }
    if NoAdjacentLong(more) {
      forall k | 0 <= k && k + 1 < |pages| && IsLong(pages[k]) ensures Tag(pages[k + 1]) != LONG_FIRST {
        assert more[k + 1] == pages[k + 1];
      }
    }
  }

  lemma {:induction false} FormedSnoc(pages: seq<Page>, p: Page)
    requires WellFormedText(pages)
    requires Tag(p) == LONG_NEXT ==> EndsLong(pages)
    requires Tag(p) == LONG_FIRST ==> Chunk(p) != []
    requires !IsLong(p) ==> |Values(TextRows(p, Tag(p)))| == ReadU16(p, 2)
    ensures WellFormedText(pages + [p])
  {
    hide ReadU16, TextRows, Values, Chunk;
    var more := pages + [p];
    assert forall i | 0 <= i < |pages| :: more[i] == pages[i];
    assert more[|pages|] == p;
  }

  /** The pages of one long string. */
  ghost predicate LongRunPages(more: seq<Page>) {
    && more != [] && Tag(more[0]) == LONG_FIRST && Chunk(more[0]) != []
    && forall k | 0 < k < |more| :: Tag(more[k]) == LONG_NEXT
  }

  lemma {:induction false} LongAppended(pages: seq<Page>, more: seq<Page>)
    requires WellFormedText(pages) && LongRunPages(more)
    ensures WellFormedText(pages + more) && EndsLong(pages + more)
    ensures NoAdjacentLong(pages + more) <==> NoAdjacentLong(pages) && !EndsLong(pages)
    ensures LongStarts(pages + more) == LongStarts(pages) + 1
  {
    hide ReadU16, WellFormedText, NoAdjacentLong, Chunk, LongStarts;
    var n := |more| - 1;
    var before, p := more[..n], more[n];
    if n == 0 {
      assert more == [p];
      FormedSnoc(pages, p);
      AdjacentSnoc(pages, p);
      LongStartsSnoc(pages, p);
    } else {
      LongAppended(pages, before);
      assert pages + more == (pages + before) + [p];
      FormedSnoc(pages + before, p);
      AdjacentSnoc(pages + before, p);
      LongStartsSnoc(pages + before, p);
    }
  }

  lemma LaidLong(pages: seq<Page>, done: seq<TextRow>, more: seq<Page>, row: TextRow)
    requires Laid(pages, 0, done) && IsLongRow(row) && LongRunPages(more)
    ensures Laid(pages + more, 0, done + [row])
  {
    hide WellFormedText, NoAdjacentLong, LongRunPages, IsLongRow, LongStarts, LongStrings;
    LongAppended(pages, more);
    LongPairsSnoc(done, row);
    LongStringsSnoc(done, row);
  }

  // ---------- encoding: pages under construction ----------

  ghost predicate TextPageState(page: seq<byte>, data: seq<byte>, bitmap: seq<byte>,
                                numRows: nat, dataSize: nat, offsetEnd: nat, rows: seq<TextRow>) {
    && |page| == PAGE_SIZE && |bitmap| == PAGE_SIZE && |data| == PAGE_SIZE
    && numRows == |rows|
    && offsetEnd == OFFSETS + 2 * |Values(rows)|
    && dataSize == |Text(Values(rows))|
    && offsetEnd + dataSize + BitmapSize(numRows) <= PAGE_SIZE
    && BitsAt(bitmap, rows)
    && OffsetsAt(page, Values(rows))
    && data[..dataSize] == Text(Values(rows))
  }

  lemma EmptyTextPage(page: seq<byte>, data: seq<byte>, bitmap: seq<byte>)
    requires |page| == PAGE_SIZE && |bitmap| == PAGE_SIZE && |data| == PAGE_SIZE
    ensures TextPageState(page, data, bitmap, 0, 0, OFFSETS, [])
  {
  }

  /** 65504 rows at most: the row count is never mistaken for a long-string tag. */
  lemma TextPageRowLimit(page: seq<byte>, data: seq<byte>, bitmap: seq<byte>,
                         numRows: nat, dataSize: nat, offsetEnd: nat, rows: seq<TextRow>)
    requires TextPageState(page, data, bitmap, numRows, dataSize, offsetEnd, rows)
    ensures numRows <= 65504 < LONG_NEXT && dataSize < PAGE_SIZE && OFFSETS <= offsetEnd < PAGE_SIZE
  {
  }

  lemma OffsetsKept(p: seq<byte>, q: seq<byte>, vs: seq<str>)
    requires OffsetsAt(p, vs) && OFFSETS + 2 * |vs| <= |p| == |q|
    requires p[OFFSETS..OFFSETS + 2 * |vs|] == q[OFFSETS..OFFSETS + 2 * |vs|]
    ensures OffsetsAt(q, vs)
  {
    hide EndOf;
    var hi := OFFSETS + 2 * |vs|;
    assert forall i | OFFSETS <= i < hi :: p[i] == p[OFFSETS..hi][i - OFFSETS] && q[i] == q[OFFSETS..hi][i - OFFSETS];
    forall k | 0 <= k < |vs| ensures ReadU16(q, OFFSETS + 2 * k) == EndOf(vs, k) {
      assert ReadU16(p, OFFSETS + 2 * k) == EndOf(vs, k);
    }
  }

  lemma {:induction false} OffsetsSnoc(p: seq<byte>, vs: seq<str>, v: str)
    requires OffsetsAt(p, vs) && ReadU16(p, OFFSETS + 2 * |vs|) == |Text(vs)| + |v|
    ensures OffsetsAt(p, vs + [v])
  {
    hide EndOf, Text, ReadU16;
    forall k | 0 <= k < |vs| + 1 ensures ReadU16(p, OFFSETS + 2 * k) == EndOf(vs + [v], k) {
      EndOfSnoc(vs, v, k);
    }
  }

  lemma {:induction false} EndOfSnoc(vs: seq<str>, v: str, k: nat)
    requires k <= |vs|
    ensures EndOf(vs + [v], k) == if k < |vs| then EndOf(vs, k) else |Text(vs)| + |v|
  {
    var more := vs + [v];
    if k < |vs| {
      assert more[..k + 1] == vs[..k + 1];
    } else {
      assert more[..k + 1] == more;
      TextSnoc(vs, v);
    }
  }

  /** Store one more string: its characters, its end offset and its bit. */
  method StoreText(page: array<byte>, data: array<byte>, bitmap: array<byte>, numRows: nat, dataSize: nat,
                   offsetEnd: nat, value: str, ghost rows: seq<TextRow>)
    requires page != data && page != bitmap && data != bitmap
    requires TextPageState(page[..], data[..], bitmap[..], numRows, dataSize, offsetEnd, rows)
    requires offsetEnd + 2 + dataSize + |value| + BitmapSize(numRows + 1) <= PAGE_SIZE
    modifies page, data, bitmap
    ensures TextPageState(page[..], data[..], bitmap[..], numRows + 1, dataSize + |value|, offsetEnd + 2,
                          rows + [Some(value)])
  {
    hide Text, Values, OffsetsAt, BitsAt, ReadU16;
    ghost var vs := Values(rows);
    ghost var before, chars := page[..], data[..dataSize];
    CopyInto(data, dataSize, value);
    assert data[..dataSize] == chars;
    assert data[..dataSize + |value|] == chars + value;
    WriteU16(page, offsetEnd, dataSize + |value|);
    OffsetsKept(before, page[..], vs);
    OffsetsSnoc(page[..], vs, value);
    TextSnoc(vs, value);
    PushBit(bitmap, numRows, true, rows, Some(value));
    ValuesSnoc(rows, Some(value));
  }

  method StoreTextNull(bitmap: array<byte>, numRows: nat, ghost page: seq<byte>, ghost data: seq<byte>,
                       ghost dataSize: nat, ghost offsetEnd: nat, ghost rows: seq<TextRow>)
    requires TextPageState(page, data, bitmap[..], numRows, dataSize, offsetEnd, rows)
    requires offsetEnd + dataSize + BitmapSize(numRows + 1) <= PAGE_SIZE
    modifies bitmap
    ensures TextPageState(page, data, bitmap[..], numRows + 1, dataSize, offsetEnd, rows + [None])
  {
    hide Text, Values, OffsetsAt, BitsAt;
    PushBit(bitmap, numRows, false, rows, None);
    ValuesSnoc(rows, None);
  }

  method WriteHeader(page: array<byte>, first: u16, second: u16)
    requires page.Length == PAGE_SIZE
    modifies page
    ensures ReadU16(page[..], 0) == first && ReadU16(page[..], 2) == second
    ensures forall i | OFFSETS <= i < PAGE_SIZE :: page[i] == old(page[i])
  {
    WriteU16(page, 0, first);
    ghost var low := page[..2];
    WriteU16(page, 2, second);
    assert page[..2] == low;
  }

  lemma HeaderKept(p: Page, q: Page)
    requires p[..OFFSETS] == q[..OFFSETS]
    ensures ReadU16(p, 0) == ReadU16(q, 0) && ReadU16(p, 2) == ReadU16(q, 2)
  {
    assert forall i | 0 <= i < OFFSETS :: p[i] == p[..OFFSETS][i] && q[i] == q[..OFFSETS][i];
  }

  /** Header, characters and bitmap complete a page whose offsets are in place. */
  method SealTextPage(page: array<byte>, chars: seq<byte>, bitmap: seq<byte>, numRows: u16, offsetEnd: nat,
                      ghost rows: seq<TextRow>)
    requires page.Length == PAGE_SIZE && numRows == |rows| < LONG_NEXT
    requires offsetEnd == OFFSETS + 2 * |Values(rows)| && chars == Text(Values(rows))
    requires OffsetsAt(page[..], Values(rows)) && BitsAt(bitmap, rows) && |bitmap| == BitmapSize(numRows)
    requires offsetEnd + |chars| + |bitmap| <= PAGE_SIZE
    modifies page
    ensures TextPageHolds(page[..], rows)
  {
    hide Text, Values, OffsetsAt, BitsAt, ReadU16;
    ghost var before := page[..];
    WriteHeader(page, numRows, (offsetEnd - OFFSETS) / 2);
    ghost var headed: Page := page[..];
    OffsetsKept(before, headed, Values(rows));
    CopyInto(page, offsetEnd, chars);
    ghost var filled: Page := page[..];
    assert filled[OFFSETS..offsetEnd] == headed[OFFSETS..offsetEnd];
    OffsetsKept(headed, filled, Values(rows));
    HeaderKept(headed, filled);
    CopyInto(page, PAGE_SIZE - |bitmap|, bitmap);
    ghost var sealed: Page := page[..];
    assert sealed[OFFSETS..offsetEnd] == filled[OFFSETS..offsetEnd];
    OffsetsKept(filled, sealed, Values(rows));
    HeaderKept(filled, sealed);
    assert sealed[offsetEnd..offsetEnd + |chars|] == chars && sealed[PAGE_SIZE - |bitmap|..] == bitmap;
  }

  // ---------- encoding: long strings ----------

  /** `save_long_string`: the value cut into pages of CHUNK characters, the first tagged 0xffff. */
  method LongPages(value: str, ghost pages0: seq<Page>) returns (more: seq<Page>)
    requires value != [] && DecodeText(pages0).Some?
    ensures DecodeText(pages0 + more) == Some(DecodeText(pages0).value + [Some(value)])
    ensures LongRunPages(more) && |more| == (|value| + 8187) / 8188
    ensures forall k | 0 <= k < |more| - 1 :: |Chunk(more[k])| == 8188
  {
    hide DecodeText, TextRows, Chunk;
    ghost var rows := DecodeText(pages0).value;
    more := [];
    var offset, firstPage := 0, true;
    assert pages0 + more == pages0;
    while offset < |value|
      invariant offset <= |value| && (firstPage <==> offset == 0)
      invariant DecodeText(pages0 + more) == Some(if firstPage then rows else rows + [Some(value[..offset])])
      invariant if firstPage then more == [] else LongRunPages(more)
      invariant if offset < |value| then offset == 8188 * |more| else |more| == (|value| + 8187) / 8188
      invariant forall k | 0 <= k < |more| && (k < |more| - 1 || offset < |value|) :: |Chunk(more[k])| == 8188
    {
      var len := if |value| - offset < CHUNK then |value| - offset else CHUNK;
      var p := LongPage(if firstPage then LONG_FIRST else LONG_NEXT, value[offset..offset + len]);
      DecodeTextSnoc(pages0 + more, p);
      assert pages0 + (more + [p]) == pages0 + more + [p];
      assert value[..offset] + value[offset..offset + len] == value[..offset + len];
      assert firstPage ==> value[offset..offset + len] == value[..offset + len];
      ReadLongPage(rows, value[..offset], p);
      more := more + [p];
      firstPage := false;
      offset := offset + len;
    }
    assert value[..|value|] == value;
  }

  lemma ReadLongPage(rows: seq<TextRow>, sofar: str, p: Page)
    ensures ReadU16(p, 0) == LONG_FIRST ==> ReadPage(rows, p) == Some(rows + [Some(Chunk(p))])
    ensures ReadU16(p, 0) == LONG_NEXT ==>
      ReadPage(rows + [Some(sofar)], p) == Some(rows + [Some(sofar + Chunk(p))])
  {
    assert (rows + [Some(sofar)])[|rows| := Some(sofar + Chunk(p))] == rows + [Some(sofar + Chunk(p))];
  }

  method LongPage(tag: u16, chars: str) returns (p: Page)
    requires |chars| <= CHUNK
    ensures ReadU16(p, 0) == tag && Chunk(p) == chars
  {
    var page := new byte[PAGE_SIZE];
    WriteHeader(page, tag, |chars|);
    ghost var headed: Page := page[..];
    CopyInto(page, OFFSETS, chars);
    p := page[..];
    HeaderKept(headed, p);
    assert p[OFFSETS..OFFSETS + |chars|] == chars;
  }

  // ---------- encoding: the streaming inserter ----------

  /** `ColumnInserter<std::string>`: offsets grow up in the page; characters wait in `data` until it is saved. */
  class TextInserter {
    var pages: seq<Page>
    var page: array<byte>
    var data: array<byte>
    var bitmap: array<byte>
    var numRows: nat
    var dataSize: nat
    var offsetEnd: nat
    ghost var rows: seq<TextRow>  // rows of the page being filled

    ghost predicate Valid()
      reads this, page, data, bitmap
    {
      && page != data && page != bitmap && data != bitmap
      && DecodeText(pages).Some?
      && TextPageState(page[..], data[..], bitmap[..], numRows, dataSize, offsetEnd, rows)
      && Laid(pages, numRows, DecodeText(pages).Get([]) + rows)
    }

    /** Every row inserted so far. */
    ghost function Contents(): seq<TextRow>
      reads this
    {
      DecodeText(pages).Get([]) + rows
    }

    constructor ()
      ensures Valid() && Contents() == [] && fresh(page) && fresh(data) && fresh(bitmap)
    {
      pages, numRows, dataSize, offsetEnd, rows := [], 0, 0, OFFSETS, [];
      page, data, bitmap := new byte[PAGE_SIZE], new byte[PAGE_SIZE], new byte[PAGE_SIZE];
    }

    /** Header, characters and bitmap of the page being filled. */
    method SealPage() returns (p: Page)
      requires Valid() && numRows > 0
      modifies page
      ensures TextPageHolds(p, rows) && page.Length == PAGE_SIZE
      ensures data.Length == PAGE_SIZE && bitmap.Length == PAGE_SIZE
    {
      var size := BitmapSize(numRows);
      TextPageRowLimit(page[..], data[..], bitmap[..], numRows, dataSize, offsetEnd, rows);
      Sealable(page[..], data[..], bitmap[..], numRows, dataSize, offsetEnd, rows);
      hide TextPageState, TextPageHolds, DecodeText, OffsetsAt, BitsAt, Values, Text, Laid;
      SealTextPage(page, data[..dataSize], bitmap[..size], numRows, offsetEnd, rows);
      p := page[..];
    }

    method SavePage()
      requires Valid() && numRows > 0
      modifies this, page
      ensures Valid() && Contents() == old(Contents()) && rows == [] && numRows == 0
      ensures bitmap == old(bitmap) && data == old(data) && fresh(page)
    {
      hide TextPageState, TextPageHolds, DecodeText, Laid;
      var p := SealPage();
      var next := new byte[PAGE_SIZE];
      EmptyTextPage(next[..], data[..], bitmap[..]);
      PageSaved(pages, numRows, p, rows);
      pages, rows, numRows, dataSize, offsetEnd, page := pages + [p], [], 0, 0, OFFSETS, next;
    }

    /** The space test, for `extra` more bytes of offset and characters and one more bitmap bit. */
    method MakeRoom(extra: nat)
      requires Valid() && extra <= 2 + LONG_LIMIT
      modifies this, page
      ensures Valid() && Contents() == old(Contents())
      ensures offsetEnd + dataSize + extra + BitmapSize(numRows + 1) <= PAGE_SIZE
      ensures old(offsetEnd + dataSize + numRows / 8 + 1) + extra <= 8192 ==>
        pages == old(pages) && numRows == old(numRows) && page == old(page)
      ensures bitmap == old(bitmap) && data == old(data) && (page == old(page) || fresh(page))
    {
      FreshPageRoom(page[..], data[..], bitmap[..], numRows, dataSize, offsetEnd, rows);
      hide DecodeText, BitsAt, OffsetsAt, Laid;
      if offsetEnd + extra + dataSize + numRows / 8 + 1 > PAGE_SIZE {
        SavePage();
      }
    }

    method Insert(value: str)
      requires Valid()
      modifies this, page, data, bitmap
      ensures Valid() && Contents() == old(Contents()) + [Some(value)]
      ensures bitmap == old(bitmap) && data == old(data) && (page == old(page) || fresh(page))
    {
      hide DecodeText, TextPageState, Laid, LongRunPages;
      if |value| > LONG_LIMIT {
        FlushRows();
        var more := LongPages(value, pages);
        LaidLong(pages, Contents(), more, Some(value));
        assert DecodeText(pages + more).value + [] == Contents() + [Some(value)];
        pages := pages + more;
      } else {
        MakeRoom(2 + |value|);
        LaidRow(pages, numRows, Contents(), Some(value), numRows + 1);
        StoreText(page, data, bitmap, numRows, dataSize, offsetEnd, value, rows);
        numRows, dataSize, offsetEnd := numRows + 1, dataSize + |value|, offsetEnd + 2;
        assert DecodeText(pages).value + (rows + [Some(value)]) == Contents() + [Some(value)];
        rows := rows + [Some(value)];
      }
    }

    method InsertNull()
      requires Valid()
      modifies this, page, bitmap
      ensures Valid() && Contents() == old(Contents()) + [None]
      ensures bitmap == old(bitmap) && data == old(data) && (page == old(page) || fresh(page))
    {
      hide DecodeText, TextPageState, Laid;
      MakeRoom(0);
      LaidRow(pages, numRows, Contents(), None, numRows + 1);
      StoreTextNull(bitmap, numRows, page[..], data[..], dataSize, offsetEnd, rows);
      numRows := numRows + 1;
      assert DecodeText(pages).value + (rows + [None]) == Contents() + [None];
      rows := rows + [None];
    }

    /** A page with rows is saved before a long string starts and at the end. */
    method FlushRows()
      requires Valid()
      modifies this, page
      ensures Valid() && Contents() == old(Contents()) && rows == [] && numRows == 0
      ensures bitmap == old(bitmap) && data == old(data) && (page == old(page) || fresh(page))
    {
      hide DecodeText, BitsAt, OffsetsAt, Laid;
      if numRows > 0 {
        SavePage();
      }
    }

    method Finalize()
      requires Valid()
      modifies this, page
      ensures DecodeText(pages) == Some(old(Contents()))
      ensures LaidOut(pages, old(Contents()))
    {
      hide DecodeText, TextPageState, Laid, LaidOut;
      FlushRows();
      LaidIsLaidOut(pages, 0, Contents());
      assert DecodeText(pages).value + rows == DecodeText(pages).value;
    }
  }

  /** Saving a page moves its rows from pending to written. */
  lemma {:induction false} PageSaved(pages: seq<Page>, pending: nat, p: Page, rows: seq<TextRow>)
    requires DecodeText(pages).Some? && TextPageHolds(p, rows) && pending > 0
    requires Laid(pages, pending, DecodeText(pages).Get([]) + rows)
    ensures DecodeText(pages + [p]).Some? && Laid(pages + [p], 0, DecodeText(pages + [p]).Get([]) + [])
    ensures DecodeText(pages + [p]).Get([]) + [] == DecodeText(pages).Get([]) + rows
  {
    hide DecodeText, TextPageHolds, Laid;
    DecodeHeldPage(pages, p, rows);
    LaidPage(pages, pending, DecodeText(pages).value + rows, p, rows);
    assert DecodeText(pages + [p]).value + [] == DecodeText(pages).value + rows;
  }

  /** A page without rows has room for any short string. */
  lemma FreshPageRoom(page: seq<byte>, data: seq<byte>, bitmap: seq<byte>,
                      numRows: nat, dataSize: nat, offsetEnd: nat, rows: seq<TextRow>)
    requires TextPageState(page, data, bitmap, numRows, dataSize, offsetEnd, rows)
    ensures numRows == 0 ==> offsetEnd == OFFSETS && dataSize == 0
  {
    EmptyText();
  }

  lemma {:induction false} Sealable(page: seq<byte>, data: seq<byte>, bitmap: seq<byte>,
                 numRows: nat, dataSize: nat, offsetEnd: nat, rows: seq<TextRow>)
    requires TextPageState(page, data, bitmap, numRows, dataSize, offsetEnd, rows)
    ensures |page| == |data| == |bitmap| == PAGE_SIZE && numRows == |rows|
    ensures offsetEnd == OFFSETS + 2 * |Values(rows)| && offsetEnd + dataSize + BitmapSize(numRows) <= PAGE_SIZE
    ensures data[..dataSize] == Text(Values(rows)) && OffsetsAt(page, Values(rows))
    ensures BitsAt(bitmap[..BitmapSize(numRows)], rows)
  {
    assert forall i: nat | i < |rows| :: BitmapBit(bitmap[..BitmapSize(numRows)], i) == BitmapBit(bitmap, i);
  }

  // ---------- encoding: the batch encoder ----------

  method PackOffsets(page: array<byte>, offsets: seq<u16>, ghost vs: seq<str>)
    requires OFFSETS + 2 * |offsets| <= page.Length && IsOffsets(offsets, vs)
    modifies page
    ensures OffsetsAt(page[..], vs)
  {
    hide EndOf;
    for k := 0 to |offsets|
      invariant forall j | 0 <= j < k :: ReadU16(page[..], OFFSETS + 2 * j) == offsets[j]
    {
      ghost var before := page[..];
      WriteU16(page, OFFSETS + 2 * k, offsets[k]);
      assert forall j | 0 <= j < k ::
        && ReadU16(before, OFFSETS + 2 * j) == offsets[j]
        && ReadU16(page[..], OFFSETS + 2 * j) == ReadU16(before, OFFSETS + 2 * j);
    }
  }

  ghost predicate IsOffsets(offsets: seq<u16>, vs: seq<str>) {
    |offsets| == |vs| && forall k | 0 <= k < |vs| :: offsets[k] == EndOf(vs, k)
  }

  lemma {:induction false} IsOffsetsSnoc(offsets: seq<u16>, vs: seq<str>, v: str)
    requires IsOffsets(offsets, vs) && |Text(vs)| + |v| < 0x1_0000
    ensures IsOffsets(offsets + [|Text(vs)| + |v|], vs + [v])
  {
    hide EndOf, Text;
    forall k | 0 <= k <= |vs| ensures (offsets + [|Text(vs)| + |v|])[k] == EndOf(vs + [v], k) {
      EndOfSnoc(vs, v, k);
    }
  }

  method SaveTextPage(numRows: nat, data: seq<byte>, offsets: seq<u16>, bitmap: seq<byte>, ghost rows: seq<TextRow>)
    returns (p: Page)
    requires BatchState(numRows, data, offsets, bitmap, rows)
    ensures TextPageHolds(p, rows)
  {
    var page := new byte[PAGE_SIZE];
    PackOffsets(page, offsets, Values(rows));
    hide OffsetsAt, BitsAt, Values, Text, IsOffsets;
    SealTextPage(page, data, bitmap, numRows, OFFSETS + 2 * |offsets|, rows);
    p := page[..];
  }

  /** The locals of `to_columnar` while a page is being collected. */
  ghost predicate BatchState(numRows: nat, data: seq<byte>, offsets: seq<u16>, bitmap: seq<byte>, rows: seq<TextRow>) {
    && numRows == |rows|
    && IsOffsets(offsets, Values(rows))
    && data == Text(Values(rows))
    && BitsAt(bitmap, rows) && |bitmap| == BitmapSize(numRows)
    && OFFSETS + 2 * |offsets| + |data| + |bitmap| <= PAGE_SIZE
  }

  lemma EmptyBatch()
    ensures BatchState(0, [], [], [], []) && DecodeText([]) == Some([])
  {
  }

  /** Collecting one more row of a page that has room for it. */
  method CollectRow(numRows: nat, data0: seq<byte>, offsets0: seq<u16>, bitmap0: seq<byte>, row: TextRow,
                    ghost rows: seq<TextRow>)
    returns (data: seq<byte>, offsets: seq<u16>, bitmap: seq<byte>)
    requires BatchState(numRows, data0, offsets0, bitmap0, rows)
    requires !MustSave(numRows, data0, offsets0, row) && !IsLongRow(row)
    ensures BatchState(numRows + 1, data, offsets, bitmap, rows + [row])
  {
    hide IsOffsets, Values, Text, BitsAt;
    data, offsets := data0, offsets0;
    bitmap := GrowBit(bitmap0, numRows, row.Some?, rows, row);
    ValuesSnoc(rows, row);
    if row.Some? {
      TextSnoc(Values(rows), row.value);
      IsOffsetsSnoc(offsets0, Values(rows), row.value);
      data := data + row.value;
      offsets := offsets + [|data|];
    }
  }

  /** The encoder between two rows: pages written and rows collected make up the column so far. */
  ghost predicate Encoding(pages: seq<Page>, numRows: nat, data: seq<byte>, offsets: seq<u16>, bitmap: seq<byte>,
                           rows: seq<TextRow>, done: seq<TextRow>) {
    && BatchState(numRows, data, offsets, bitmap, rows)
    && DecodeText(pages).Some? && DecodeText(pages).value + rows == done
    && Laid(pages, numRows, done)
  }

  /** The collected rows become a page. */
  method FlushPage(pages0: seq<Page>, numRows: nat, data: seq<byte>, offsets: seq<u16>, bitmap: seq<byte>,
                   ghost rows: seq<TextRow>, ghost done: seq<TextRow>)
    returns (pages: seq<Page>)
    requires Encoding(pages0, numRows, data, offsets, bitmap, rows, done) && numRows > 0
    ensures Encoding(pages, 0, [], [], [], [], done)
  {
    EmptyBatch();
    hide BatchState, DecodeText, Laid, TextPageHolds;
    var p := SaveTextPage(numRows, data, offsets, bitmap, rows);
    DecodeHeldPage(pages0, p, rows);
    LaidPage(pages0, numRows, done, p, rows);
    pages := pages0 + [p];
    assert DecodeText(pages).value + [] == done;
  }

  method StoreLong(pages0: seq<Page>, value: str, ghost done: seq<TextRow>) returns (pages: seq<Page>)
    requires Encoding(pages0, 0, [], [], [], [], done) && IsLongRow(Some(value))
    ensures Encoding(pages, 0, [], [], [], [], done + [Some(value)])
  {
    LongValue(Some(value));
    hide BatchState, DecodeText, Laid, IsLongRow, LongRunPages;
    var more := LongPages(value, pages0);
    LaidLong(pages0, done, more, Some(value));
    pages := pages0 + more;
    assert DecodeText(pages).value + [] == done + [Some(value)];
  }

  method StoreShort(pages: seq<Page>, numRows: nat, data0: seq<byte>, offsets0: seq<u16>, bitmap0: seq<byte>,
                    row: TextRow,
                    ghost rows: seq<TextRow>, ghost done: seq<TextRow>)
    returns (data: seq<byte>, offsets: seq<u16>, bitmap: seq<byte>)
    requires Encoding(pages, numRows, data0, offsets0, bitmap0, rows, done)
    requires !IsLongRow(row) && !MustSave(numRows, data0, offsets0, row)
    ensures Encoding(pages, numRows + 1, data, offsets, bitmap, rows + [row], done + [row])
  {
    hide BatchState, DecodeText, Laid, IsLongRow, MustSave;
    LaidRow(pages, numRows, done, row, numRows + 1);
    data, offsets, bitmap := CollectRow(numRows, data0, offsets0, bitmap0, row, rows);
    assert DecodeText(pages).value + (rows + [row]) == done + [row];
  }

  /** One row of the loop: save the page if the row does not fit or is long, then store the row. */
  method EncodeTextRow(pages0: seq<Page>, numRows0: nat, data0: seq<byte>, offsets0: seq<u16>, bitmap0: seq<byte>,
                       row: TextRow, ghost rows0: seq<TextRow>, ghost done: seq<TextRow>)
    returns (pages: seq<Page>, numRows: nat, data: seq<byte>, offsets: seq<u16>, bitmap: seq<byte>,
             ghost rows: seq<TextRow>)
    requires Encoding(pages0, numRows0, data0, offsets0, bitmap0, rows0, done)
    ensures Encoding(pages, numRows, data, offsets, bitmap, rows, done + [row])
  {
    pages, numRows, data, offsets, bitmap, rows := pages0, numRows0, data0, offsets0, bitmap0, rows0;
    NoRows(numRows, data, offsets, bitmap, rows, row);
    EmptyBatch();
    NoRows(0, [], [], [], [], row);
    LongValue(row);
    LimitIsExact(row);
    hide *;
    if MustSave(numRows, data, offsets, row) {
      pages := FlushPage(pages, numRows, data, offsets, bitmap, rows, done);
      numRows, data, offsets, bitmap, rows := 0, [], [], [], [];
    }
    if TakesPages(row) {
      NothingCollected(pages, numRows, data, offsets, bitmap, rows, done);
      pages := StoreLong(pages, row.value, done);
      numRows, data, offsets, bitmap, rows := 0, [], [], [], [];
    } else {
      data, offsets, bitmap := StoreShort(pages, numRows, data, offsets, bitmap, row, rows, done);
      numRows, rows := numRows + 1, rows + [row];
    }
  }

  lemma NothingCollected(pages: seq<Page>, numRows: nat, data: seq<byte>, offsets: seq<u16>, bitmap: seq<byte>,
                         rows: seq<TextRow>, done: seq<TextRow>)
    requires Encoding(pages, numRows, data, offsets, bitmap, rows, done)
    ensures numRows == 0 ==> rows == [] && data == [] && offsets == [] && bitmap == []
  {
    EmptyText();
  }

  /** The space test; before a long string the current page is always saved. */
  predicate MustSave(numRows: nat, data: seq<byte>, offsets: seq<u16>, row: TextRow) {
    if TakesPages(row) then numRows > 0
    else OFFSETS + 2 * |offsets| + |data| + RoomFor(row) + (numRows / 8 + 1) > PAGE_SIZE
  }

  function RoomFor(row: TextRow): nat { if row.Some? then 2 + |row.value| else 0 }

  /** The VARCHAR branch of `to_columnar`. */
  method EncodeTextColumn(column: seq<TextRow>) returns (pages: seq<Page>)
    ensures DecodeText(pages) == Some(column)
    ensures LaidOut(pages, column)
  {
    hide *;
    var numRows: nat, data: seq<byte>, offsets: seq<u16>, bitmap: seq<byte> := 0, [], [], [];
    ghost var rows: seq<TextRow> := [];
    pages := [];
    NothingEncoded(column);
    for n := 0 to |column|
      invariant EncodedTo(column, n, pages, numRows, data, offsets, bitmap, rows)
    {
      pages, numRows, data, offsets, bitmap, rows :=
        EncodeNext(column, n, pages, numRows, data, offsets, bitmap, rows);
    }
    pages := FlushLast(column, pages, numRows, data, offsets, bitmap, rows);
  }

  /** The encoder before row `n` of a column. */
  ghost predicate EncodedTo(column: seq<TextRow>, n: nat, pages: seq<Page>, numRows: nat, data: seq<byte>,
                            offsets: seq<u16>, bitmap: seq<byte>, rows: seq<TextRow>) {
    n <= |column| && Encoding(pages, numRows, data, offsets, bitmap, rows, column[..n])
  }

  method EncodeNext(column: seq<TextRow>, n: nat, pages0: seq<Page>, numRows0: nat, data0: seq<byte>,
                    offsets0: seq<u16>, bitmap0: seq<byte>, ghost rows0: seq<TextRow>)
    returns (pages: seq<Page>, numRows: nat, data: seq<byte>, offsets: seq<u16>, bitmap: seq<byte>,
             ghost rows: seq<TextRow>)
    requires n < |column| && EncodedTo(column, n, pages0, numRows0, data0, offsets0, bitmap0, rows0)
    ensures EncodedTo(column, n + 1, pages, numRows, data, offsets, bitmap, rows)
  {
    ghost var done := column[..n];
    assert column[..n + 1] == done + [column[n]];
    hide Encoding;
    pages, numRows, data, offsets, bitmap, rows :=
      EncodeTextRow(pages0, numRows0, data0, offsets0, bitmap0, column[n], rows0, done);
  }

  /** After the last row, a page that has rows is saved. */
  method FlushLast(column: seq<TextRow>, pages0: seq<Page>, numRows: nat, data: seq<byte>, offsets: seq<u16>,
                   bitmap: seq<byte>, ghost rows: seq<TextRow>)
    returns (pages: seq<Page>)
    requires EncodedTo(column, |column|, pages0, numRows, data, offsets, bitmap, rows)
    ensures DecodeText(pages) == Some(column)
    ensures LaidOut(pages, column)
  {
    assert column[..|column|] == column;
    hide Encoding, DecodeText, LaidOut;
    if numRows != 0 {
      pages := FlushPage(pages0, numRows, data, offsets, bitmap, rows, column);
      EncodedAll(pages, 0, [], [], [], [], column);
    } else {
      pages := pages0;
      NothingCollected(pages, numRows, data, offsets, bitmap, rows, column);
      EncodedAll(pages, numRows, data, offsets, bitmap, rows, column);
    }
  }

  lemma NothingEncoded(column: seq<TextRow>)
    ensures EncodedTo(column, 0, [], 0, [], [], [], [])
  {
    EmptyBatch();
    assert column[..0] == [];
  }

  lemma {:induction false} EncodedAll(pages: seq<Page>, numRows: nat, data: seq<byte>, offsets: seq<u16>,
                                      bitmap: seq<byte>, rows: seq<TextRow>, done: seq<TextRow>)
    requires Encoding(pages, numRows, data, offsets, bitmap, rows, done) && rows == []
    ensures DecodeText(pages) == Some(done)
    ensures LaidOut(pages, done)
  {
    hide BatchState, DecodeText, Laid, LaidOut;
    LaidIsLaidOut(pages, numRows, done);
    assert DecodeText(pages).value + rows == DecodeText(pages).value;
  }

  lemma NoRows(numRows: nat, data: seq<byte>, offsets: seq<u16>, bitmap: seq<byte>, rows: seq<TextRow>, row: TextRow)
    requires BatchState(numRows, data, offsets, bitmap, rows)
    ensures numRows == 0 ==> rows == [] && !MustSave(numRows, data, offsets, row)
    ensures IsLongRow(row) && !MustSave(numRows, data, offsets, row) ==> numRows == 0
  {
  }

  lemma LongValue(row: TextRow)
    ensures IsLongRow(row) ==> row.Some? && row.value != []
  {
  }

  /** Any column of optional strings, short or long, reads back as it was inserted. */
  method RoundTrip(column: seq<TextRow>) returns (back: Option<seq<TextRow>>)
    ensures back == Some(column)
  {
    hide TextInserter.Valid, TextInserter.Contents, DecodeText;
    var inserter := new TextInserter();
    for n := 0 to |column|
      invariant inserter.Valid() && inserter.Contents() == column[..n]
      invariant fresh(inserter) && fresh(inserter.page) && fresh(inserter.data) && fresh(inserter.bitmap)
    {
      match column[n] {
        case Some(v) => inserter.Insert(v);
        case None => inserter.InsertNull();
      }
    }
    inserter.Finalize();
    assert column[..|column|] == column && Padded(column, |column|) == column;
    back := DecodeTextColumn(inserter.pages, |column|);
  }
}
