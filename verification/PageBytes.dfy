/** What the bytes of a page say, written out. */
module PageBytes {
  import opened Bytes
  import opened Pages
  import opened IntPages
  import opened TextPages

  /** Two bytes, the low one first. */
  function Word16(p: Page, at: int): int
    requires 0 <= at && at + 2 <= 8192
  {
    var lo: int, hi: int := p[at], p[at + 1];
    lo + 256 * hi
  }

  /** Four bytes, the low one first, as a two's complement number. */
  function Word32(p: Page, at: int): int
    requires 0 <= at && at + 4 <= 8192
  {
    var b0: int, b1: int, b2: int, b3: int := p[at], p[at + 1], p[at + 2], p[at + 3];
    var u := b0 + 256 * b1 + 65536 * b2 + 16777216 * b3;
    if u < 2147483648 then u else u - 4294967296
  }

  /** Row `i` of a page with `n` rows has a value: bit `i % 8` of a byte of the bitmap at the page end. */
  predicate Present(p: Page, n: int, i: int)
    requires 0 <= i < n < 65536
  {
    p[8192 - (n + 7) / 8 + i / 8] / [1, 2, 4, 8, 16, 32, 64, 128][i % 8] % 2 == 1
  }

  /** The values before row `i`. */
  function Rank(p: Page, n: int, i: nat): (k: nat)
    requires i <= n < 65536
    ensures k <= i
  {
    if i == 0 then 0 else Rank(p, n, i - 1) + if Present(p, n, i - 1) then 1 else 0
  }

  lemma PresentIs(p: Page, n: u16, i: nat)
    requires i < n
    ensures RowBit(p, n, i) == Present(p, n, i)
  {
  }

  lemma HeaderIs(p: Page)
    ensures ReadU16(p, 0) == Word16(p, 0) && ReadU16(p, 2) == Word16(p, 2)
  {
  }

  lemma WordIs(p: Page, at: nat)
    requires at + 2 <= 8192
    ensures ReadU16(p, at) == Word16(p, at)
    ensures at + 4 <= 8192 ==> ReadI32(p, at) == Word32(p, at)
  {
  }

  lemma {:induction false} IntRank(p: Page, i: nat)
    requires i <= ReadU16(p, 0)
    ensures |Values(IntRows(p, i))| == Rank(p, ReadU16(p, 0), i)
  {
    hide RowBit, Present, ReadU16, ReadI32, Values;
    if i == 0 {
      NoIntRows(p);
    } else {
      IntRank(p, i - 1);
      IntRowsSnoc(p, i - 1);
      PresentIs(p, ReadU16(p, 0), i - 1);
      ValuesSnoc(IntRows(p, i - 1), IntCell(p, i - 1, |Values(IntRows(p, i - 1))|));
    }
  }

  /** An INT32 page: the row count at byte 0, the values from byte 4 on, the bitmap at the end. */
  lemma {:induction false} IntRowBytes(p: Page, i: nat)
    requires i < Word16(p, 0)
    ensures |IntPageRows(p)| == Word16(p, 0)
    ensures var at := 4 + 4 * Rank(p, Word16(p, 0), i);
      if !Present(p, Word16(p, 0), i) then IntPageRows(p)[i] == None
      else at + 4 <= 8192 ==> IntPageRows(p)[i] == Some(Word32(p, at))
  {
    HeaderIs(p);
    var n, at := ReadU16(p, 0), 4 + 4 * Rank(p, Word16(p, 0), i);
    PresentIs(p, n, i);
    if at + 4 <= 8192 { WordIs(p, at); }
    hide RowBit, Present, ReadU16, ReadI32, Word16, Word32, Values, Rank;
    IntRank(p, i);
    IntRowsSnoc(p, i);
    IntRowsPrefix(p, i + 1, n);
    assert IntPageRows(p)[i] == IntRows(p, i + 1)[i];
  }

  /** A column's rows are those of its pages, one page after another. */
  lemma {:induction false} IntColumnRows(pages: seq<Page>, k: nat, i: nat)
    requires k < |pages| && i < |IntPageRows(pages[k])|
    ensures var before := |DecodeInt(pages[..k])|;
      before + i < |DecodeInt(pages)| && DecodeInt(pages)[before + i] == IntPageRows(pages[k])[i]
  {
    hide IntPageRows;
    assert pages[..k + 1][..k] == pages[..k];
    DecodeIntPrefix(pages, k + 1);
  }

  lemma {:induction false} TextRank(p: Page, i: nat)
    requires i <= ReadU16(p, 0)
    ensures |Values(TextRows(p, i))| == Rank(p, ReadU16(p, 0), i)
  {
    hide RowBit, Present, ReadU16, TextAt, Values;
    if i == 0 {
      NoTextRows(p);
    } else {
      TextRank(p, i - 1);
      TextRowsSnoc(p, i - 1);
      PresentIs(p, ReadU16(p, 0), i - 1);
      ValuesSnoc(TextRows(p, i - 1), TextCell(p, i - 1, |Values(TextRows(p, i - 1))|));
    }
  }

  /** The `k`-th string of a page with `m` strings: end offsets from byte 4 on, characters behind them. */
  ghost predicate StringAt(p: Page, m: int, k: nat, s: str) {
    0 <= m && 4 + 2 * k + 2 <= 8192 ==>
      var start, end := if k == 0 then 0 else Word16(p, 4 + 2 * (k - 1)), Word16(p, 4 + 2 * k);
      start <= end && 4 + 2 * m + end <= 8192 ==> s == p[4 + 2 * m + start..4 + 2 * m + end]
  }

  lemma TextAtBytes(p: Page, k: nat)
    ensures StringAt(p, Word16(p, 2), k, TextAt(p, k))
  {
    HeaderIs(p);
    if 4 + 2 * k + 2 <= 8192 {
      WordIs(p, 4 + 2 * k);
      if k > 0 { WordIs(p, 4 + 2 * (k - 1)); }
      hide ReadU16, Word16;
    }
  }

  /** A normal VARCHAR page: row count, number of strings, end offsets, characters, and the bitmap at the end. */
  lemma {:induction false} TextRowBytes(p: Page, i: nat)
    requires i < Word16(p, 0)
    ensures ReadU16(p, 0) == Word16(p, 0)
    ensures var row := TextRows(p, Word16(p, 0))[i];
      if !Present(p, Word16(p, 0), i) then row == None
      else row.Some? && StringAt(p, Word16(p, 2), Rank(p, Word16(p, 0), i), row.value)
  {
    HeaderIs(p);
    var n := ReadU16(p, 0);
    PresentIs(p, n, i);
    TextAtBytes(p, Rank(p, n, i));
    hide RowBit, Present, ReadU16, Word16, TextAt, StringAt, Values, Rank;
    TextRank(p, i);
    TextRowsSnoc(p, i);
    TextRowsPrefix(p, i + 1, n);
    assert TextRows(p, n)[i] == TextRows(p, i + 1)[i];
  }

  /** The characters of a long-string page: their number at byte 2, and they start at byte 4. */
  lemma ChunkBytes(p: Page)
    ensures 4 + Word16(p, 2) <= 8192 ==> Chunk(p) == p[4..4 + Word16(p, 2)]
  {
    HeaderIs(p);
  }

  /** A row count of 0xffff is a new string, 0xfffe continues the last one, anything else is a normal page. */
  lemma {:induction false} PageKinds(rows: seq<TextRow>, p: Page)
    ensures Word16(p, 0) == 65535 ==> ReadPage(rows, p) == Some(rows + [Some(Chunk(p))])
    ensures Word16(p, 0) == 65534 && (rows == [] || rows[|rows| - 1].None?) ==> ReadPage(rows, p) == None
    ensures Word16(p, 0) == 65534 && rows != [] && rows[|rows| - 1].Some? ==>
      ReadPage(rows, p) == Some(rows[..|rows| - 1] + [Some(rows[|rows| - 1].value + Chunk(p))])
    ensures Word16(p, 0) < 65534 ==>
      ReadU16(p, 0) == Word16(p, 0) && ReadPage(rows, p) == Some(rows + TextRows(p, Word16(p, 0)))
  {
    HeaderIs(p);
    if rows != [] && rows[|rows| - 1].Some? {
      var last := Some(rows[|rows| - 1].value + Chunk(p));
      assert rows[|rows| - 1 := last] == rows[..|rows| - 1] + [last];
    }
  }
}
