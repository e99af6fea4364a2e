/** What INT32 and VARCHAR pages share: rows with NULLs, validity bitmaps and the decoder's view of them. */
module Pages {
  import opened Bytes

  /** The non-NULL values, in row order. */
  function Values<T>(rows: seq<Option<T>>): (vs: seq<T>)
    ensures |vs| <= |rows|
  {
    if rows == [] then []
    else
      var last := rows[|rows| - 1];
      Values(rows[..|rows| - 1]) + if last.Some? then [last.value] else []
  }

  lemma {:induction false} ValuesSnoc<T>(rows: seq<Option<T>>, row: Option<T>)
    ensures Values(rows + [row]) == if row.Some? then Values(rows) + [row.value] else Values(rows)
  {
    assert (rows + [row])[..|rows|] == rows;
  }

  /** A row's value sits at its rank among the non-NULL values. */
  lemma {:induction false} ValueRank<T>(rows: seq<Option<T>>, i: nat)
    requires i <= |rows|
    ensures Values(rows[..i]) <= Values(rows)
    ensures i < |rows| && rows[i].Some? ==>
      |Values(rows[..i])| < |Values(rows)| && Values(rows)[|Values(rows[..i])|] == rows[i].value
  {
    if i == |rows| {
      assert rows[..i] == rows;
    } else {
      ValueRank(rows[..|rows| - 1], i);
      assert rows[..|rows| - 1][..i] == rows[..i];
    }
  }

  // ---------- bitmaps ----------

  function BitmapSize(n: nat): nat { (n + 7) / 8 }

  predicate BitmapBit(bitmap: seq<byte>, i: nat)
    requires i / 8 < |bitmap|
  {
    Bit(bitmap[i / 8], i % 8)
  }

  /** The validity bit of row `i` in a page of `n` rows; the bitmap ends at the page end. */
  predicate RowBit(p: Page, n: u16, i: nat)
    requires i < n
  {
    Bit(p[PAGE_SIZE - BitmapSize(n) + i / 8], i % 8)
  }

  /** Bit `i` says whether row `i` has a value; later bits may be anything. */
  ghost predicate BitsAt<T>(bitmap: seq<byte>, rows: seq<Option<T>>) {
    && |rows| <= 8 * |bitmap|
    && forall i | 0 <= i < |rows| :: BitmapBit(bitmap, i) == rows[i].Some?
  }

  /** `set_bitmap` / `unset_bitmap` for the next row. */
  method PushBit<T>(bitmap: array<byte>, idx: nat, on: bool, ghost rows: seq<Option<T>>, ghost row: Option<T>)
    requires BitsAt(bitmap[..], rows) && idx == |rows| && idx < 8 * bitmap.Length && on == row.Some?
    modifies bitmap
    ensures BitsAt(bitmap[..], rows + [row])
  {
    ghost var before := bitmap[..];
    bitmap[idx / 8] := PutBit(bitmap[idx / 8], idx % 8, on);
    forall i | 0 <= i < |rows| ensures BitmapBit(bitmap[..], i) == rows[i].Some? {
      assert BitmapBit(before, i) == rows[i].Some?;
      assert i / 8 == idx / 8 ==> i % 8 != idx % 8;
    }
  }

  lemma HeldBit<T>(p: Page, rows: seq<Option<T>>, i: nat)
    requires i < |rows| && |rows| < 0x1_0000 && BitsAt(p[PAGE_SIZE - BitmapSize(|rows|)..], rows)
    ensures RowBit(p, |rows|, i) == rows[i].Some?
  {
    assert BitmapBit(p[PAGE_SIZE - BitmapSize(|rows|)..], i) == RowBit(p, |rows|, i);
  }

  /** `set_bitmap` / `unset_bitmap` of `to_columnar`, which grow the bitmap on demand. */
  method GrowBit<T>(bitmap0: seq<byte>, idx: nat, on: bool, ghost rows: seq<Option<T>>, ghost row: Option<T>)
    returns (bitmap: seq<byte>)
    requires BitsAt(bitmap0, rows) && |bitmap0| == BitmapSize(|rows|) && idx == |rows| && on == row.Some?
    ensures BitsAt(bitmap, rows + [row]) && |bitmap| == BitmapSize(|rows| + 1)
  {
    bitmap := bitmap0;
    while |bitmap| < idx / 8 + 1
      invariant bitmap0 <= bitmap && |bitmap| <= BitmapSize(idx + 1)
    {
      bitmap := bitmap + [0];
    }
    assert BitsAt(bitmap, rows);
    ghost var before := bitmap;
    bitmap := bitmap[idx / 8 := PutBit(bitmap[idx / 8], idx % 8, on)];
    forall i | 0 <= i < |rows| ensures BitmapBit(bitmap, i) == rows[i].Some? {
      assert BitmapBit(before, i) == rows[i].Some?;
      assert i / 8 == idx / 8 ==> i % 8 != idx % 8;
    }
  }

  // ---------- the decoder's result rows ----------

  /** What the decoder's caller sees: row `i` of the pages, NULL past their end. */
  function Padded<T>(rows: seq<Option<T>>, n: nat): (r: seq<Option<T>>)
    ensures |r| == n
    ensures forall i | 0 <= i < n :: r[i] == if i < |rows| then rows[i] else None
  {
    seq(n, i requires 0 <= i < n => if i < |rows| then rows[i] else None)
  }

  /** A value beyond the declared row count is what makes the decoder throw. */
  ghost predicate Overfull<T>(rows: seq<Option<T>>, n: nat) {
    exists i :: n <= i < |rows| && rows[i].Some?
  }

  lemma StoreRow<T>(rows: seq<Option<T>>, cell: Option<T>, n: nat)
    ensures Padded(rows + [cell], n) == if |rows| < n then Padded(rows, n)[|rows| := cell] else Padded(rows, n)
    ensures Overfull(rows + [cell], n) <==> Overfull(rows, n) || (|rows| >= n && cell.Some?)
  {
    var more := rows + [cell];
    assert forall i | 0 <= i < |rows| :: more[i] == rows[i];
    assert more[|rows|] == cell;
    if Overfull(rows, n) {
      var i :| n <= i < |rows| && rows[i].Some?;
      assert more[i].Some?;
    }
  }

  lemma OverfullPrefix<T>(rows: seq<Option<T>>, more: seq<Option<T>>, n: nat)
    requires rows <= more && Overfull(rows, n)
    ensures Overfull(more, n)
  {
    var i :| n <= i < |rows| && rows[i].Some?;
    assert more[i].Some?;
  }
}
