/** Scanning stored columns into payload columns, and writing payload columns back to pages. */
module Scan {
  import opened Bytes
  import opened Pages
  import opened IntPages
  import opened TextPages
  import opened LateMaterialization
  import opened ColumnBuffers

  // ---------- what payloads mean ----------

  datatype Data = Null | Int(i: i32) | Str(s: str)

  function IntData(row: IntRow): Data { if row.Some? then Int(row.value) else Null }

  function TextData(row: TextRow): Data { if row.Some? then Str(row.value) else Null }

  function Mapped<A, B>(f: A -> B, xs: seq<A>): (ys: seq<B>)
    ensures |ys| == |xs| && forall i | 0 <= i < |xs| :: ys[i] == f(xs[i])
  {
    seq(|xs|, i requires 0 <= i < |xs| => f(xs[i]))
  }

  /** The rows of a stored column; `None` for a malformed VARCHAR column or a type outside this model. */
  function DecodeColumn(c: Column): Option<seq<Data>> {
    match c.dataType
    case INT32 => Some(Mapped(IntData, DecodeInt(c.pages)))
    case VARCHAR => (match DecodeText(c.pages) case Some(rows) => Some(Mapped(TextData, rows)) case None => None)
    case _ => None
  }

  function IntOfRaw(raw: u64): IntRow { if raw == NULL_RAW then None else Some(AsI32(raw)) }

  function TextOfRaw(inputs: seq<Table>, raw: u64): TextRow {
    if raw == NULL_RAW then None else Resolve(inputs, raw)
  }

  /** What the final materialisation writes for a payload of a column of type `t`. */
  function Cell(inputs: seq<Table>, t: DataType, raw: u64): Data {
    match t
    case INT32 => IntData(IntOfRaw(raw))
    case VARCHAR => TextData(TextOfRaw(inputs, raw))
    case _ => Null
  }

  // ---------- the payloads of a scan ----------

  function RawOfInt(row: IntRow): u64 { if row.Some? then MakeI32(row.value) else NULL_RAW }

  function RawOfRef(table: nat, col: nat, ref: TextRef): u64 {
    if ref.Some? then Pack(Ref(table, col, ref.value.0, ref.value.1)) else NULL_RAW
  }

  function RefPayloads(table: nat, col: nat, refs: seq<TextRef>): (vs: seq<u64>)
    ensures |vs| == |refs| && forall i | 0 <= i < |refs| :: vs[i] == RawOfRef(table, col, refs[i])
  {
    seq(|refs|, i requires 0 <= i < |refs| => RawOfRef(table, col, refs[i]))
  }

  lemma RefPayloadsSnoc(table: nat, col: nat, refs: seq<TextRef>, ref: TextRef)
    ensures RefPayloads(table, col, refs + [ref]) == RefPayloads(table, col, refs) + [RawOfRef(table, col, ref)]
  {
  }

  function ScanView(table: nat, col: nat, c: Column): seq<u64> {
    match c.dataType
    case INT32 => Mapped(RawOfInt, DecodeInt(c.pages))
    case VARCHAR => RefPayloads(table, col, Refs(c.pages))
    case _ => []
  }

  lemma {:induction false} InPlaceIsScan(pages: seq<Page>)
    requires NoNulls(DecodeInt(pages))
    ensures InPlace(pages) == Mapped(RawOfInt, DecodeInt(pages))
  {
  }

  /** The offset loop of the in-place path. */
  method BuildIndex(pages: seq<Page>) returns (offs: seq<nat>)
    ensures IsIndex(offs, pages)
  {
    offs := [0];
    var cumulative := 0;
    for k := 0 to |pages|
      invariant |offs| == k + 1 && cumulative == RowsBefore(pages, k)
      invariant forall j | 0 <= j <= k :: offs[j] == RowsBefore(pages, j)
    {
      cumulative := cumulative + ReadU16(pages[k], 0);
      offs := offs + [cumulative];
    }
  }

  /** One column of `scan_columnar_to_columnbuffer`. */
  method ScanColumn(table: nat, col: nat, c: Column, numRows: nat) returns (out: ColumnT)
    requires c.dataType == INT32 ==> numRows == |DecodeInt(c.pages)|
    ensures fresh(out) && out.Valid() && out.View() == ScanView(table, col, c)
    ensures out.isZeroCopy ==> c.dataType == INT32 && out.srcColumn == Some(c.pages)
  {
    out := new ColumnT();
    var nulls := ColumnHasNulls(c);
    if c.dataType == INT32 && !nulls {
      InPlaceIsScan(c.pages);
      out.isZeroCopy := true;
      out.srcColumn := Some(c.pages);
      out.numValues := numRows;
      out.pageOffsets := BuildIndex(c.pages);
    } else if c.dataType == INT32 {
      ScanIntPages(c.pages, out);
    } else if c.dataType == VARCHAR {
      ScanTextPages(table, col, c.pages, out);
    }
  }

  /** The materialising INT32 branch. */
  method ScanIntPages(pages: seq<Page>, out: ColumnT)
    requires out.Valid() && !out.isZeroCopy && out.View() == []
    modifies out
    ensures out.Valid() && !out.isZeroCopy && out.View() == Mapped(RawOfInt, DecodeInt(pages))
  {
    hide ColumnT.Valid, ColumnT.View, DecodeInt, RawOfInt, Mapped;
    EmptyInts();
    for k := 0 to |pages|
      invariant out.Valid() && !out.isZeroCopy && out.View() == Mapped(RawOfInt, DecodeInt(pages[..k]))
    {
      assert pages[..k + 1] == pages[..k] + [pages[k]];
      DecodeIntSnoc(pages[..k], pages[k]);
      ScanIntPage(pages[k], out, DecodeInt(pages[..k]));
    }
    assert pages[..|pages|] == pages;
  }

  lemma EmptyInts()
    ensures DecodeInt([]) == [] && Mapped(RawOfInt, []) == []
  {
  }

  lemma MappedSnoc<A, B>(f: A -> B, xs: seq<A>, x: A)
    ensures Mapped(f, xs + [x]) == Mapped(f, xs) + [f(x)]
  {
  }

  method ScanIntPage(p: Page, out: ColumnT, ghost before: seq<IntRow>)
    requires out.Valid() && !out.isZeroCopy && out.View() == Mapped(RawOfInt, before)
    modifies out
    ensures out.Valid() && !out.isZeroCopy && out.View() == Mapped(RawOfInt, before + IntPageRows(p))
  {
    hide ColumnT.Valid, ColumnT.View, Mapped, IntRows, Values, RowBit, ReadI32, ReadU16;
    var n := ReadU16(p, 0);
    var dataIdx := 0;
    NoIntRows(p);
    assert before + [] == before;
    for i := 0 to n
      invariant dataIdx == |Values(IntRows(p, i))|
      invariant out.Valid() && !out.isZeroCopy && out.View() == Mapped(RawOfInt, before + IntRows(p, i))
    {
      ghost var cell := IntCell(p, i, dataIdx);
      IntRowsSnoc(p, i);
      ValuesSnoc(IntRows(p, i), cell);
      assert before + IntRows(p, i + 1) == before + IntRows(p, i) + [cell];
      MappedSnoc(RawOfInt, before + IntRows(p, i), cell);
      if RowBit(p, n, i) {
        out.Append(MakeI32(ReadI32(p, INT_DATA + 4 * dataIdx)));
        dataIdx := dataIdx + 1;
      } else {
        out.Append(NULL_RAW);
      }
    }
  }

  /** The VARCHAR branch: one reference per row, none for continuation pages. */
  method ScanTextPages(table: nat, col: nat, pages: seq<Page>, out: ColumnT)
    requires out.Valid() && !out.isZeroCopy && out.View() == []
    modifies out
    ensures out.Valid() && !out.isZeroCopy
    ensures out.View() == RefPayloads(table, col, Refs(pages))
  {
    hide ColumnT.Valid, ColumnT.View, Refs, RawOfRef, RefPayloads;
    assert Refs([]) == [] by { NoRefsAtAll(); }
    assert RefPayloads(table, col, []) == [];
    for k := 0 to |pages|
      invariant out.Valid() && !out.isZeroCopy && out.View() == RefPayloads(table, col, Refs(pages[..k]))
    {
      var p := pages[k];
      RefsSnoc(pages, k);
      var tag := ReadU16(p, 0);
      if tag == LONG_FIRST {
        out.Append(Pack(Ref(table, col, k, LONG_FIRST)));
        LongRef(table, col, k);
        RefPayloadsSnoc(table, col, Refs(pages[..k]), Some((k, LONG_FIRST)));
      } else if tag == LONG_NEXT {
        assert Refs(pages[..k]) + [] == Refs(pages[..k]);
      } else {
        ScanTextPage(table, col, p, k, out, Refs(pages[..k]));
      }
    }
    assert pages[..|pages|] == pages;
  }

  lemma NoRefsAtAll()
    ensures Refs([]) == []
  {
  }

  lemma LongRef(table: nat, col: nat, k: nat)
    ensures RawOfRef(table, col, Some((k, LONG_FIRST))) == Pack(Ref(table, col, k, LONG_FIRST))
  {
  }

  lemma RefsSnoc(pages: seq<Page>, k: nat)
    requires k < |pages|
    ensures Refs(pages[..k + 1]) == Refs(pages[..k]) + PageRefs(pages[k], k)
  {
    assert pages[..k + 1][..k] == pages[..k];
  }

  method ScanTextPage(table: nat, col: nat, p: Page, k: nat, out: ColumnT, ghost before: seq<TextRef>)
    requires out.Valid() && !out.isZeroCopy
    requires out.View() == RefPayloads(table, col, before)
    modifies out
    ensures out.Valid() && !out.isZeroCopy
    ensures out.View() == RefPayloads(table, col, before + RowRefs(p, k, Tag(p)))
  {
    hide ColumnT.Valid, ColumnT.View, RefPayloads, RowRefs, Values, RowBit, ReadU16, Pack;
    var n := ReadU16(p, 0);
    var dataIdx := 0;
    NoRowRefs(p, k);
    assert before + [] == before;
    for i := 0 to n
      invariant dataIdx == |Values(RowRefs(p, k, i))|
      invariant out.Valid() && !out.isZeroCopy && out.View() == RefPayloads(table, col, before + RowRefs(p, k, i))
    {
      ghost var cell := RefCell(p, k, i, dataIdx);
      RowRefsSnoc(p, k, i);
      ValuesSnoc(RowRefs(p, k, i), cell);
      assert before + RowRefs(p, k, i + 1) == before + RowRefs(p, k, i) + [cell];
      RefPayloadsSnoc(table, col, before + RowRefs(p, k, i), cell);
      if RowBit(p, n, i) {
        out.Append(Pack(Ref(table, col, k, dataIdx)));
        dataIdx := dataIdx + 1;
      } else {
        out.Append(NULL_RAW);
      }
    }
  }

  lemma {:induction false} NoRowRefs(p: Page, k: nat)
    ensures RowRefs(p, k, 0) == [] && Values(RowRefs(p, k, 0)) == []
  {
  }

  // ---------- a scanned column means what its pages store ----------

  function Cells(inputs: seq<Table>, t: DataType, vs: seq<u64>): (ds: seq<Data>)
    ensures |ds| == |vs| && forall i | 0 <= i < |vs| :: ds[i] == Cell(inputs, t, vs[i])
  {
    seq(|vs|, i requires 0 <= i < |vs| => Cell(inputs, t, vs[i]))
  }

  /** What the payload format cannot carry: the integer -1, and a long string right after another. */
  ghost predicate Representable(c: Column) {
    match c.dataType
    case INT32 => Some(-1) !in DecodeInt(c.pages)
    case VARCHAR => NoAdjacentLong(c.pages)
    case _ => false
  }

  /** A stored column as the encoders write it. */
  ghost predicate WellFormedColumn(c: Column) {
    && DecodeColumn(c).Some?
    && (c.dataType == VARCHAR ==> WellFormedText(c.pages))
    && |c.pages| <= 0x1_0000_0000
  }

  predicate IsLongData(d: Data) { d.Str? && IsLongRow(Some(d.s)) }

  /** The same two limits, asked of the data before they are stored. */
  ghost predicate Carried(t: DataType, ds: seq<Data>) {
    match t
    case INT32 => Int(-1) !in ds
    case VARCHAR => forall i | 0 <= i && i + 1 < |ds| && IsLongData(ds[i]) :: !IsLongData(ds[i + 1])
    case _ => false
  }

  lemma IntsCarried(rows: seq<IntRow>)
    ensures Carried(INT32, Mapped(IntData, rows)) <==> Some(-1) !in rows
  {
    var ds := Mapped(IntData, rows);
    if Int(-1) in ds {
      var i :| 0 <= i < |ds| && ds[i] == Int(-1);
      assert rows[i] == Some(-1);
    }
    if Some(-1) in rows {
      var i :| 0 <= i < |rows| && rows[i] == Some(-1);
      assert ds[i] == Int(-1);
    }
  }

  lemma TextsCarried(rows: seq<TextRow>)
    ensures Carried(VARCHAR, Mapped(TextData, rows)) <==> NoLongPairs(rows)
  {
    var ds := Mapped(TextData, rows);
    forall i | 0 <= i < |rows| ensures IsLongData(ds[i]) <==> IsLongRow(rows[i]) {
    }
    if NoLongPairs(rows) {
      forall i | 0 <= i && i + 1 < |ds| && IsLongData(ds[i]) ensures !IsLongData(ds[i + 1]) {
        assert IsLongRow(rows[i]);
      }
    }
    if Carried(VARCHAR, ds) {
      forall i | 0 <= i && i + 1 < |rows| && IsLongRow(rows[i]) ensures !IsLongRow(rows[i + 1]) {
        assert IsLongData(ds[i]);
      }
    }
  }

  lemma IntScanExact(inputs: seq<Table>, rows: seq<IntRow>)
    ensures Cells(inputs, INT32, Mapped(RawOfInt, rows)) == Mapped(IntData, rows) <==> Some(-1) !in rows
  {
    forall i | 0 <= i < |rows|
      ensures Cell(inputs, INT32, RawOfInt(rows[i])) == IntData(rows[i]) <==> rows[i] != Some(-1)
    {
      if rows[i].Some? {
        I32Payload(rows[i].value);
      }
    }
    var cells, data := Cells(inputs, INT32, Mapped(RawOfInt, rows)), Mapped(IntData, rows);
    if Some(-1) in rows {
      var i :| 0 <= i < |rows| && rows[i] == Some(-1);
      assert cells[i] != data[i];
    }
  }

  /** A stored -1 comes back as NULL. */
  lemma MinusOneLost(inputs: seq<Table>)
    ensures Mapped(IntData, [Some(-1)]) == [Int(-1)] && Cells(inputs, INT32, Mapped(RawOfInt, [Some(-1)])) == [Null]
  {
    I32Payload(-1);
  }

  lemma {:induction false} RowRefsBound(p: Page, k: nat, i: nat)
    requires i <= Tag(p)
    ensures forall j | 0 <= j < i && RowRefs(p, k, i)[j].Some? ::
      RowRefs(p, k, i)[j].value.0 == k && RowRefs(p, k, i)[j].value.1 < 0x1_0000
  {
    if i > 0 {
      RowRefsBound(p, k, i - 1);
    }
  }

  lemma {:induction false} RefsBound(pages: seq<Page>)
    ensures forall i | 0 <= i < |Refs(pages)| && Refs(pages)[i].Some? ::
      Refs(pages)[i].value.0 < |pages| && Refs(pages)[i].value.1 < 0x1_0000
  {
    if pages != [] {
      hide RowRefs, Tag;
      var shorter, p := pages[..|pages| - 1], pages[|pages| - 1];
      RefsBound(shorter);
      PageRefsBound(p, |shorter|);
    }
  }

  lemma PageRefsBound(p: Page, k: nat)
    ensures forall i | 0 <= i < |PageRefs(p, k)| && PageRefs(p, k)[i].Some? ::
      PageRefs(p, k)[i].value.0 == k && PageRefs(p, k)[i].value.1 < 0x1_0000
  {
    RowRefsBound(p, k, Tag(p));
  }

  lemma TextCellExact(inputs: seq<Table>, table: nat, col: nat, ref: TextRef, row: TextRow)
    requires table < |inputs| && table < 0xff && col < |inputs[table].columns| && col < 0x100
    requires ref.Some? ==> ref.value.0 < 0x1_0000_0000 && ref.value.1 < 0x1_0000
    requires Covers(inputs[table].columns[col].pages, ref, row)
    ensures Cell(inputs, VARCHAR, RawOfRef(table, col, ref)) == TextData(row)
      <==> Resolves(inputs[table].columns[col].pages, ref, row)
  {
    hide Pack, ResolveIn, Unpack;
    if ref.Some? {
      var r := Ref(table, col, ref.value.0, ref.value.1);
      UnpackPack(r);
      RefIsNull(r);
    }
  }

  lemma TextScanExact(inputs: seq<Table>, table: nat, col: nat)
    requires table < |inputs| && table < 0xff && col < |inputs[table].columns| && col < 0x100
    requires WellFormedColumn(inputs[table].columns[col]) && inputs[table].columns[col].dataType == VARCHAR
    ensures var c := inputs[table].columns[col];
      |Refs(c.pages)| == |DecodeText(c.pages).value|
      && (Cells(inputs, VARCHAR, RefPayloads(table, col, Refs(c.pages))) == Mapped(TextData, DecodeText(c.pages).value)
          <==> NoAdjacentLong(c.pages))
  {
    hide Covers, Resolves, NoAdjacentLong, WellFormedText, Refs, DecodeText, Cell, TextData, RawOfRef;
    var pages := inputs[table].columns[col].pages;
    var refs, rows := Refs(pages), DecodeText(pages).value;
    ColumnFaithful(pages);
    LateMaterializationExact(pages);
    RefsBound(pages);
    hide Faithful;
    assert AllCover(pages, refs, rows) by { FaithfulCovers(pages, refs, rows); }
    var cells, data := Cells(inputs, VARCHAR, RefPayloads(table, col, refs)), Mapped(TextData, rows);
    forall i | 0 <= i < |rows| ensures cells[i] == data[i] <==> Resolves(pages, refs[i], rows[i]) {
      TextCellExact(inputs, table, col, refs[i], rows[i]);
    }
    if AllResolve(pages, refs, rows) {
      assert cells == data;
    }
    if cells == data {
      forall i | 0 <= i < |rows| ensures Resolves(pages, refs[i], rows[i]) {
        assert cells[i] == data[i];
      }
    }
  }

  lemma FaithfulCovers(pages: seq<Page>, refs: seq<TextRef>, rows: seq<TextRow>)
    requires Faithful(pages, refs, rows)
    ensures AllCover(pages, refs, rows)
  {
  }

  /** The payloads of a scan mean the stored rows exactly when the column is representable. */
  lemma ScanExact(inputs: seq<Table>, table: nat, col: nat)
    requires table < |inputs| && table < 0xff && col < |inputs[table].columns| && col < 0x100
    requires WellFormedColumn(inputs[table].columns[col])
    ensures var c := inputs[table].columns[col];
      |ScanView(table, col, c)| == |DecodeColumn(c).value|
      && (Cells(inputs, c.dataType, ScanView(table, col, c)) == DecodeColumn(c).value <==> Representable(c))
  {
    hide Cell, RawOfRef, RawOfInt, Refs, WellFormedText, NoAdjacentLong, DecodeText, DecodeInt;
    var c := inputs[table].columns[col];
    match c.dataType {
      case INT32 => IntScanExact(inputs, DecodeInt(c.pages));
      case VARCHAR => TextScanExact(inputs, table, col);
      case _ =>
    }
  }

  // ---------- writing the result ----------

  /** One column of `finalize_columnbuffer_to_columnar`. */
  method FinalizeColumn(inputs: seq<Table>, t: DataType, c: ColumnT, numRows: nat) returns (out: Column)
    requires c.Valid() && (numRows == 0 || numRows == c.numValues)
    requires t == INT32 || t == VARCHAR
    modifies c`cachedPageIdx
    ensures out.dataType == t
    ensures DecodeColumn(out) == Some(Cells(inputs, t, if numRows == 0 then [] else old(c.View())))
  {
    if numRows == 0 {
      return Column(t, []);
    }
    if t == INT32 {
      var pages := FinalizeInts(inputs, c, numRows);
      out := Column(t, pages);
    } else {
      var pages := FinalizeTexts(inputs, c, numRows);
      out := Column(t, pages);
    }
  }

  method FinalizeInts(inputs: seq<Table>, c: ColumnT, numRows: nat) returns (pages: seq<Page>)
    requires c.Valid() && numRows == c.numValues
    modifies c`cachedPageIdx
    ensures Mapped(IntData, DecodeInt(pages)) == Cells(inputs, INT32, old(c.View()))
  {
    hide IntInserter.Valid, IntInserter.Contents, DecodeInt, ColumnT.Valid, ColumnT.View;
    ViewLength(c);
    ghost var view := c.View();
    var inserter := new IntInserter();
    for n := 0 to numRows
      invariant c.Valid() && c.View() == view && numRows == c.numValues
      invariant inserter.Valid() && inserter.Contents() == Mapped(IntOfRaw, view[..n])
      invariant fresh(inserter) && fresh(inserter.page) && fresh(inserter.bitmap)
    {
      var v := c.Get(n);
      assert view[..n + 1] == view[..n] + [v];
      MappedSnoc(IntOfRaw, view[..n], v);
      if v != NULL_RAW {
        inserter.Insert(AsI32(v));
      } else {
        inserter.InsertNull();
      }
    }
    inserter.Finalize();
    pages := inserter.pages;
    assert view[..numRows] == view;
  }

  lemma ViewLength(c: ColumnT)
    requires c.Valid()
    ensures |c.View()| == c.numValues
  {
  }

  method FinalizeTexts(inputs: seq<Table>, c: ColumnT, numRows: nat) returns (pages: seq<Page>)
    requires c.Valid() && numRows == c.numValues
    modifies c`cachedPageIdx
    ensures DecodeText(pages).Some?
    ensures Mapped(TextData, DecodeText(pages).value) == Cells(inputs, VARCHAR, old(c.View()))
  {
    hide TextInserter.Valid, TextInserter.Contents, DecodeText, ColumnT.Valid, ColumnT.View, Resolve;
    ViewLength(c);
    ghost var view := c.View();
    ghost var f := (raw: u64) => TextOfRaw(inputs, raw);
    var inserter := new TextInserter();
    for n := 0 to numRows
      invariant c.Valid() && c.View() == view && numRows == c.numValues
      invariant inserter.Valid() && inserter.Contents() == Mapped(f, view[..n])
      invariant fresh(inserter) && fresh(inserter.page) && fresh(inserter.data) && fresh(inserter.bitmap)
    {
      var v := c.Get(n);
      assert view[..n + 1] == view[..n] + [v];
      MappedSnoc(f, view[..n], v);
      if v == NULL_RAW {
        inserter.InsertNull();
      } else {
        var text := ResolveRef(inputs, v);
        match text {
          case Some(s) => inserter.Insert(s);
          case None => inserter.InsertNull();
        }
      }
    }
    inserter.Finalize();
    pages := inserter.pages;
    assert view[..numRows] == view;
  }
}
