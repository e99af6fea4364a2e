/** 64-bit payloads and packed string references, and what resolving a reference yields. */
module LateMaterialization {
  import opened Bytes
  import opened Pages
  import opened TextPages

  // ---------- value_t ----------

  const NULL_RAW: u64 := 0xffff_ffff_ffff_ffff

  /** `make_i32`: sign extension to 64 bits. */
  function MakeI32(v: i32): u64 { if v < 0 then v + 0x1_0000_0000_0000_0000 else v }

  /** `as_i32`: truncation to the low 32 bits. */
  function AsI32(raw: u64): i32 { Signed(raw % 0x1_0000_0000) }

  /** An integer survives its payload, and -1 is the only one that turns into NULL. */
  lemma I32Payload(v: i32)
    ensures AsI32(MakeI32(v)) == v
    ensures MakeI32(v) == NULL_RAW <==> v == -1
  {
    if v < 0 {
      assert MakeI32(v) == 0xffff_ffff * 0x1_0000_0000 + (v + 0x1_0000_0000);
    }
  }

  // ---------- PackedStringRef ----------

  datatype Ref = Ref(table: nat, col: nat, page: nat, slot: nat) {
    /** The fields fit their bit-fields: 8, 8, 32 and 16 bits. */
    predicate InRange() { table < 0x100 && col < 0x100 && page < 0x1_0000_0000 && slot < 0x1_0000 }
  }

  /** `make_str_ref`; the casts to the field widths wrap. */
  function Pack(r: Ref): u64 {
    (r.slot % 0x1_0000)
    + 0x1_0000 * ((r.page % 0x1_0000_0000)
                  + 0x1_0000_0000 * ((r.col % 0x100) + 0x100 * (r.table % 0x100)))
  }

  function Unpack(raw: u64): Ref {
    var high := raw / 0x1_0000;
    var ids := high / 0x1_0000_0000;
    Ref(ids / 0x100, ids % 0x100, high % 0x1_0000_0000, raw % 0x1_0000)
  }

  /** Packing loses nothing exactly when every field fits. */
  lemma UnpackPack(r: Ref)
    ensures Unpack(Pack(r)) == r <==> r.InRange()
  {
    var ids := (r.col % 0x100) + 0x100 * (r.table % 0x100);
    var high := (r.page % 0x1_0000_0000) + 0x1_0000_0000 * ids;
    assert Pack(r) == (r.slot % 0x1_0000) + 0x1_0000 * high;
    assert Pack(r) / 0x1_0000 == high && Pack(r) % 0x1_0000 == r.slot % 0x1_0000;
    assert high / 0x1_0000_0000 == ids && high % 0x1_0000_0000 == r.page % 0x1_0000_0000;
    assert ids / 0x100 == r.table % 0x100 && ids % 0x100 == r.col % 0x100;
  }

  /** Only the all-ones reference is mistaken for NULL; table ids below 255 exclude it. */
  lemma RefIsNull(r: Ref)
    requires r.InRange()
    ensures Pack(r) == NULL_RAW <==> r == Ref(0xff, 0xff, 0xffff_ffff, 0xffff)
  {
    UnpackPack(r);
    UnpackPack(Ref(0xff, 0xff, 0xffff_ffff, 0xffff));
    assert Pack(Ref(0xff, 0xff, 0xffff_ffff, 0xffff)) == NULL_RAW;
  }

  // ---------- input tables ----------

  datatype DataType = INT32 | INT64 | FP64 | VARCHAR

  datatype Column = Column(dataType: DataType, pages: seq<Page>)

  datatype Table = Table(numRows: nat, columns: seq<Column>)

  // ---------- resolving ----------

  /** The characters of the long-string pages from page `k` on, whatever their tags. */
  function LongRun(pages: seq<Page>, k: nat): str
    decreases |pages| - k
  {
    if k < |pages| && IsLong(pages[k]) then Chunk(pages[k]) + LongRun(pages, k + 1) else []
  }

  function ResolveIn(pages: seq<Page>, page: nat, slot: nat): Option<str> {
    if page >= |pages| then None
    else if IsLong(pages[page]) then Some(LongRun(pages, page))
    else if slot >= ReadU16(pages[page], 2) then None
    else Some(TextAt(pages[page], slot))
  }

  function Resolve(inputs: seq<Table>, raw: u64): Option<str> {
    var r := Unpack(raw);
    if r.table >= |inputs| || r.col >= |inputs[r.table].columns| then None
    else ResolveIn(inputs[r.table].columns[r.col].pages, r.page, r.slot)
  }

  method ReadLongRun(pages: seq<Page>, first: nat) returns (buffer: str)
    requires first <= |pages|
    ensures buffer == LongRun(pages, first)
  {
    hide Chunk, IsLong;
    buffer := [];
    var cur := first;
    while cur < |pages|
      invariant first <= cur <= |pages|
      invariant LongRun(pages, first) == buffer + LongRun(pages, cur)
    {
      var p := pages[cur];
      if !IsLong(p) { break; }
      assert buffer + (Chunk(p) + LongRun(pages, cur + 1)) == (buffer + Chunk(p)) + LongRun(pages, cur + 1);
      buffer := buffer + Chunk(p);
      cur := cur + 1;
    }
  }

  /** `StringRefResolver::resolve`; `None` is the null pointer. */
  method ResolveRef(inputs: seq<Table>, raw: u64) returns (r: Option<str>)
    ensures r == Resolve(inputs, raw)
  {
    hide LongRun, Slice, ReadU16;
    var ref := Unpack(raw);
    if ref.table >= |inputs| { return None; }
    var table := inputs[ref.table];
    if ref.col >= |table.columns| { return None; }
    var pages := table.columns[ref.col].pages;
    if ref.page >= |pages| { return None; }
    var p := pages[ref.page];
    if IsLong(p) {
      var buffer := ReadLongRun(pages, ref.page);
      return Some(buffer);
    }
    var numOffsets: nat := ReadU16(p, 2);
    if ref.slot >= numOffsets { return None; }
    var base := OFFSETS + 2 * numOffsets;
    var start: nat := if ref.slot == 0 then 0 else ReadU16(p, OFFSETS + 2 * (ref.slot - 1));
    var end: nat := ReadU16(p, OFFSETS + 2 * ref.slot);
    return Some(Slice(p, base + start, base + end));
  }

  // ---------- the references a scan makes ----------

  /** Page and slot of a VARCHAR row; `None` for NULL. */
  type TextRef = Option<(nat, nat)>

  /** The k-th non-NULL row of a normal page refers to slot k. */
  function RefCell(p: Page, page: nat, i: nat, rank: nat): TextRef
    requires i < Tag(p)
  {
    if RowBit(p, Tag(p), i) then Some((page, rank)) else None
  }

  function RowRefs(p: Page, page: nat, i: nat): (refs: seq<TextRef>)
    requires i <= Tag(p)
    ensures |refs| == i
  {
    if i == 0 then [] else
      var before := RowRefs(p, page, i - 1);
      before + [RefCell(p, page, i - 1, |Values(before)|)]
  }

  function PageRefs(p: Page, page: nat): seq<TextRef> {
    if Tag(p) == LONG_FIRST then [Some((page, LONG_FIRST))]
    else if Tag(p) == LONG_NEXT then []
    else RowRefs(p, page, Tag(p))
  }

  function Refs(pages: seq<Page>): seq<TextRef> {
    if pages == [] then [] else
      Refs(pages[..|pages| - 1]) + PageRefs(pages[|pages| - 1], |pages| - 1)
  }

  ghost predicate Resolves(pages: seq<Page>, ref: TextRef, row: TextRow) {
    match ref
    case None => row.None?
    case Some((page, slot)) => row.Some? && ResolveIn(pages, page, slot) == row
  }

  /** The run of long-string pages from `k` lasts to the last page. */
  ghost predicate ReachesEnd(pages: seq<Page>, k: nat) {
    k < |pages| && forall j | k <= j < |pages| :: IsLong(pages[j])
  }

  lemma {:induction false} LongRunSnoc(pages: seq<Page>, p: Page, k: nat)
    requires k < |pages|
    ensures LongRun(pages + [p], k) ==
      if ReachesEnd(pages, k) && IsLong(p) then LongRun(pages, k) + Chunk(p) else LongRun(pages, k)
    decreases |pages| - k
  {
    var more := pages + [p];
    assert more[k] == pages[k];
    if IsLong(pages[k]) {
      if k + 1 < |pages| {
        LongRunSnoc(pages, p, k + 1);
        assert ReachesEnd(pages, k) <==> ReachesEnd(pages, k + 1);
      } else {
        assert LongRun(more, k + 2) == [] && LongRun(pages, k + 1) == [];
        assert more[k + 1] == p;
        assert LongRun(more, k + 1) == if IsLong(p) then Chunk(p) else [];
      }
    }
  }

  lemma {:induction false} ResolveSnoc(pages: seq<Page>, p: Page, page: nat, slot: nat)
    requires page < |pages|
    ensures ResolveIn(pages + [p], page, slot) ==
      if ReachesEnd(pages, page) && IsLong(p) then Some(LongRun(pages, page) + Chunk(p))
      else ResolveIn(pages, page, slot)
    ensures ReachesEnd(pages, page) ==> ResolveIn(pages, page, slot) == Some(LongRun(pages, page))
    ensures ReachesEnd(pages + [p], page) <==> ReachesEnd(pages, page) && IsLong(p)
  {
    LongRunSnoc(pages, p, page);
    assert (pages + [p])[page] == pages[page];
    assert (pages + [p])[|pages|] == p;
    assert forall j | page <= j < |pages| :: (pages + [p])[j] == pages[j];
    if ReachesEnd(pages + [p], page) {
      forall j | page <= j < |pages| ensures IsLong(pages[j]) {
        assert IsLong((pages + [p])[j]);
      }
      assert IsLong((pages + [p])[|pages|]);
    }
  }

  // ---------- one more page ----------

  /** A reference yields its row, possibly with text after it that belongs to later rows. */
  ghost predicate Covers(pages: seq<Page>, ref: TextRef, row: TextRow) {
    match ref
    case None => row.None?
    case Some((page, slot)) =>
      && page < |pages| && row.Some? && ResolveIn(pages, page, slot).Some?
      && row.value <= ResolveIn(pages, page, slot).value
  }

  /** After a long-string page, the last row is the string being read. */
  ghost predicate LastRowOpen(pages: seq<Page>, refs: seq<TextRef>, rows: seq<TextRow>)
    requires |refs| == |rows|
  {
    pages != [] && IsLong(pages[|pages| - 1]) ==>
      && refs != [] && refs[|refs| - 1].Some? && ReachesEnd(pages, refs[|refs| - 1].value.0)
      && Resolves(pages, refs[|refs| - 1], rows[|refs| - 1])
  }

  ghost predicate AllCover(pages: seq<Page>, refs: seq<TextRef>, rows: seq<TextRow>) {
    |refs| == |rows| && forall i | 0 <= i < |rows| :: Covers(pages, refs[i], rows[i])
  }

  ghost predicate Tracks(pages: seq<Page>, refs: seq<TextRef>, rows: seq<TextRow>) {
    AllCover(pages, refs, rows) && LastRowOpen(pages, refs, rows)
  }

  lemma AllCoverConcat(pages: seq<Page>, refs: seq<TextRef>, rows: seq<TextRow>, refs': seq<TextRef>,
                       rows': seq<TextRow>)
    requires AllCover(pages, refs, rows) && AllCover(pages, refs', rows')
    ensures AllCover(pages, refs + refs', rows + rows')
  {
    hide Covers;
  }

  lemma CoversSnoc(pages: seq<Page>, p: Page, ref: TextRef, row: TextRow)
    requires Covers(pages, ref, row)
    ensures Covers(pages + [p], ref, row)
    ensures !Resolves(pages, ref, row) ==> !Resolves(pages + [p], ref, row)
    ensures !(ref.Some? && ReachesEnd(pages, ref.value.0) && IsLong(p)) ==>
      (Resolves(pages + [p], ref, row) <==> Resolves(pages, ref, row))
    ensures ref.Some? && ReachesEnd(pages, ref.value.0) && IsLong(p) && Chunk(p) != [] ==>
      !Resolves(pages + [p], ref, row)
    ensures ref.Some? && ReachesEnd(pages, ref.value.0) && IsLong(p) && Resolves(pages, ref, row) ==>
      Resolves(pages + [p], ref, Some(row.value + Chunk(p)))
  {
    hide LongRun, ReachesEnd, Chunk, IsLong;
    if ref.Some? {
      ResolveSnoc(pages, p, ref.value.0, ref.value.1);
      var whole := ResolveIn(pages, ref.value.0, ref.value.1).value;
      assert |row.value| == |whole| ==> row.value == whole[..|whole|] == whole;
    }
  }

  ghost predicate AllResolve(pages: seq<Page>, refs: seq<TextRef>, rows: seq<TextRow>) {
    |refs| == |rows| && forall i | 0 <= i < |rows| :: Resolves(pages, refs[i], rows[i])
  }

  /** While a long string is open no earlier reference runs to the last page. */
  ghost predicate OpenAlone(pages: seq<Page>, refs: seq<TextRef>) {
    pages != [] && IsLong(pages[|pages| - 1]) ==>
      forall i | 0 <= i < |refs| - 1 && refs[i].Some? :: !ReachesEnd(pages, refs[i].value.0)
  }

  ghost predicate Faithful(pages: seq<Page>, refs: seq<TextRef>, rows: seq<TextRow>) {
    && Tracks(pages, refs, rows)
    && (NoAdjacentLong(pages) ==> AllResolve(pages, refs, rows) && OpenAlone(pages, refs))
    && (AllResolve(pages, refs, rows) ==> NoAdjacentLong(pages))
  }

  lemma CellResolves(pages: seq<Page>, p: Page, i: nat, rank: nat)
    requires !IsLong(p) && i < Tag(p) && (RowBit(p, Tag(p), i) ==> rank < ReadU16(p, 2))
    ensures Resolves(pages + [p], RefCell(p, |pages|, i, rank), TextCell(p, i, rank))
    ensures RefCell(p, |pages|, i, rank).Some? == TextCell(p, i, rank).Some? == RowBit(p, Tag(p), i)
  {
    assert (pages + [p])[|pages|] == p;
  }

  lemma {:induction false} NormalRefs(pages: seq<Page>, p: Page, i: nat)
    requires !IsLong(p) && i <= Tag(p) && Tag(p) == ReadU16(p, 0)
    requires |Values(TextRows(p, Tag(p)))| <= ReadU16(p, 2)
    ensures |Values(RowRefs(p, |pages|, i))| == |Values(TextRows(p, i))|
    ensures AllResolve(pages + [p], RowRefs(p, |pages|, i), TextRows(p, i))
  {
    hide *;
    if i == 0 {
      NoRefs(pages, p);
    } else {
      NormalRefs(pages, p, i - 1);
      var refs, rows := RowRefs(p, |pages|, i - 1), TextRows(p, i - 1);
      var rank := |Values(rows)|;
      var ref, row := RefCell(p, |pages|, i - 1, rank), TextCell(p, i - 1, rank);
      RowRefsSnoc(p, |pages|, i - 1);
      TextRowsSnoc(p, i - 1);
      if RowBit(p, Tag(p), i - 1) {
        RankBound(p, i - 1);
      }
      CellResolves(pages, p, i - 1, rank);
      ValuesSnoc(refs, ref);
      ValuesSnoc(rows, row);
      AllResolveConcat(pages + [p], refs, rows, [ref], [row]);
    }
  }

  lemma {:induction false} NoRefs(pages: seq<Page>, p: Page)
    ensures RowRefs(p, |pages|, 0) == [] && TextRows(p, 0) == []
    ensures Values(RowRefs(p, |pages|, 0)) == [] && Values(TextRows(p, 0)) == []
    ensures AllResolve(pages + [p], [], [])
  {
  }

  lemma AllResolveConcat(pages: seq<Page>, refs: seq<TextRef>, rows: seq<TextRow>, refs': seq<TextRef>,
                         rows': seq<TextRow>)
    requires |refs| == |rows| && |refs'| == |rows'|
    ensures AllResolve(pages, refs + refs', rows + rows') <==>
      AllResolve(pages, refs, rows) && AllResolve(pages, refs', rows')
    ensures |refs'| == 1 ==> (AllResolve(pages, refs', rows') <==> Resolves(pages, refs'[0], rows'[0]))
  {
    hide Resolves;
    if AllResolve(pages, refs + refs', rows + rows') {
      forall i | 0 <= i < |rows| ensures Resolves(pages, refs[i], rows[i]) {
        assert Resolves(pages, (refs + refs')[i], (rows + rows')[i]);
      }
      forall i | 0 <= i < |rows'| ensures Resolves(pages, refs'[i], rows'[i]) {
        assert Resolves(pages, (refs + refs')[|refs| + i], (rows + rows')[|refs| + i]);
      }
    }
  }

  lemma RowRefsSnoc(p: Page, page: nat, i: nat)
    requires i < Tag(p)
    ensures RowRefs(p, page, i + 1) == RowRefs(p, page, i) + [RefCell(p, page, i, |Values(RowRefs(p, page, i))|)]
  {
  }

  lemma {:induction false} RankBound(p: Page, i: nat)
    requires i < Tag(p) && RowBit(p, Tag(p), i)
    ensures |Values(TextRows(p, i))| < |Values(TextRows(p, Tag(p)))|
  {
    TextRowsPrefix(p, i + 1, Tag(p));
    TextRowsPrefix(p, i, Tag(p));
    ValueRank(TextRows(p, Tag(p)), i);
    assert TextRows(p, Tag(p))[..i] == TextRows(p, i);
  }

  // ---------- the three kinds of page ----------

  /** Rows read so far keep their references; whether all resolve changes only by extending an open string. */
  lemma OldRows(pages: seq<Page>, p: Page, refs: seq<TextRef>, rows: seq<TextRow>)
    requires AllCover(pages, refs, rows)
    ensures AllCover(pages + [p], refs, rows)
    ensures AllResolve(pages + [p], refs, rows) ==> AllResolve(pages, refs, rows)
    ensures (!IsLong(p) || !SomeReachesEnd(pages, refs)) && AllResolve(pages, refs, rows) ==>
      AllResolve(pages + [p], refs, rows)
  {
    hide Covers, Resolves, IsLong, ReachesEnd;
    forall i | 0 <= i < |rows|
      ensures Covers(pages + [p], refs[i], rows[i])
      ensures !Resolves(pages, refs[i], rows[i]) ==> !Resolves(pages + [p], refs[i], rows[i])
      ensures Resolves(pages, refs[i], rows[i]) && !(refs[i].Some? && ReachesEnd(pages, refs[i].value.0) && IsLong(p))
        ==> Resolves(pages + [p], refs[i], rows[i])
    {
      CoversSnoc(pages, p, refs[i], rows[i]);
    }
  }

  ghost predicate SomeReachesEnd(pages: seq<Page>, refs: seq<TextRef>) {
    exists i :: 0 <= i < |refs| && refs[i].Some? && ReachesEnd(pages, refs[i].value.0)
  }

  lemma ResolvesCovers(pages: seq<Page>, refs: seq<TextRef>, rows: seq<TextRow>)
    requires AllResolve(pages, refs, rows)
    ensures AllCover(pages, refs, rows)
  {
    forall i | 0 <= i < |rows| ensures Covers(pages, refs[i], rows[i]) {
      assert Resolves(pages, refs[i], rows[i]);
    }
  }

  lemma ClosedLast(pages: seq<Page>, refs: seq<TextRef>, rows: seq<TextRow>)
    requires |refs| == |rows| && (pages == [] || !IsLong(pages[|pages| - 1]))
    ensures LastRowOpen(pages, refs, rows) && OpenAlone(pages, refs)
    ensures forall k :: !ReachesEnd(pages, k)
  {
    forall k: nat ensures !ReachesEnd(pages, k) {
      if k < |pages| {
        assert !IsLong(pages[|pages| - 1]);
      }
    }
  }

  lemma Lengths(pages: seq<Page>, refs: seq<TextRef>, rows: seq<TextRow>)
    requires Tracks(pages, refs, rows)
    ensures |refs| == |rows|
  {
  }

  lemma {:induction false} FaithfulNormal(pages: seq<Page>, p: Page, refs: seq<TextRef>, rows: seq<TextRow>)
    requires Faithful(pages, refs, rows) && !IsLong(p)
    requires |Values(TextRows(p, Tag(p)))| <= ReadU16(p, 2)
    ensures Faithful(pages + [p], refs + RowRefs(p, |pages|, Tag(p)), rows + TextRows(p, Tag(p)))
  {
    hide Values, RowRefs, TextRows, ReachesEnd, Covers, Resolves, AllResolve, AllCover, NoAdjacentLong, ReadU16,
      LastRowOpen, OpenAlone;
    var newRefs, newRows := RowRefs(p, |pages|, Tag(p)), TextRows(p, Tag(p));
    NormalRefs(pages, p, Tag(p));
    Lengths(pages, refs, rows);
    OldRows(pages, p, refs, rows);
    AdjacentSnoc(pages, p);
    ResolvesCovers(pages + [p], newRefs, newRows);
    AllCoverConcat(pages + [p], refs, rows, newRefs, newRows);
    AllResolveConcat(pages + [p], refs, rows, newRefs, newRows);
    ClosedLast(pages + [p], refs + newRefs, rows + newRows);
  }

  lemma FaithfulFirst(pages: seq<Page>, p: Page, refs: seq<TextRef>, rows: seq<TextRow>)
    requires Faithful(pages, refs, rows) && Tag(p) == LONG_FIRST && Chunk(p) != []
    ensures Faithful(pages + [p], refs + [Some((|pages|, LONG_FIRST))], rows + [Some(Chunk(p))])
  {
    hide Values, RowRefs, TextRows, Covers, Resolves, AllResolve, AllCover, NoAdjacentLong, ReadU16, ReachesEnd;
    var ref, row := Some((|pages|, LONG_FIRST)), Some(Chunk(p));
    Lengths(pages, refs, rows);
    NewLong(pages, p);
    OldRows(pages, p, refs, rows);
    AdjacentSnoc(pages, p);
    OneRow(pages + [p], ref, row);
    AllCoverConcat(pages + [p], refs, rows, [ref], [row]);
    AllResolveConcat(pages + [p], refs, rows, [ref], [row]);
    if pages == [] || !IsLong(pages[|pages| - 1]) {
      ClosedLast(pages, refs, rows);
      forall i | 0 <= i < |refs| && refs[i].Some? ensures !ReachesEnd(pages + [p], refs[i].value.0) {
        CoveredPage(pages, refs, rows, i);
        ResolveSnoc(pages, p, refs[i].value.0, refs[i].value.1);
      }
    } else {
      var last := |refs| - 1;
      CoveredPage(pages, refs, rows, last);
      CoversSnoc(pages, p, refs[last], rows[last]);
      assert !AllResolve(pages + [p], refs, rows) by {
        LastMissed(pages + [p], refs, rows);
      }
    }
  }

  lemma LastMissed(pages: seq<Page>, refs: seq<TextRef>, rows: seq<TextRow>)
    requires |refs| == |rows| > 0 && !Resolves(pages, refs[|refs| - 1], rows[|refs| - 1])
    ensures !AllResolve(pages, refs, rows)
  {
  }

  lemma CoveredPage(pages: seq<Page>, refs: seq<TextRef>, rows: seq<TextRow>, i: nat)
    requires AllCover(pages, refs, rows) && i < |rows|
    ensures Covers(pages, refs[i], rows[i])
    ensures refs[i].Some? ==> refs[i].value.0 < |pages| && rows[i].Some?
  {
  }

  lemma NewLong(pages: seq<Page>, p: Page)
    requires IsLong(p)
    ensures Resolves(pages + [p], Some((|pages|, LONG_FIRST)), Some(Chunk(p)))
    ensures ReachesEnd(pages + [p], |pages|)
  {
    assert (pages + [p])[|pages|] == p;
    assert LongRun(pages + [p], |pages| + 1) == [] && Chunk(p) + [] == Chunk(p);
  }

  lemma OneRow(pages: seq<Page>, ref: TextRef, row: TextRow)
    requires Resolves(pages, ref, row)
    ensures AllResolve(pages, [ref], [row]) && AllCover(pages, [ref], [row])
  {
    ResolvesCovers(pages, [ref], [row]);
  }

  lemma FaithfulNext(pages: seq<Page>, p: Page, refs: seq<TextRef>, rows: seq<TextRow>)
    requires Faithful(pages, refs, rows) && Tag(p) == LONG_NEXT && pages != [] && IsLong(pages[|pages| - 1])
    ensures rows != [] && rows[|rows| - 1].Some?
    ensures Faithful(pages + [p], refs, rows[|rows| - 1 := Some(rows[|rows| - 1].value + Chunk(p))])
  {
    hide Values, RowRefs, TextRows, Covers, Resolves, AllResolve, AllCover, NoAdjacentLong, ReadU16, ReachesEnd;
    Lengths(pages, refs, rows);
    var last := |rows| - 1;
    var oldRefs, oldRows, ref := refs[..last], rows[..last], refs[last];
    CoveredPage(pages, refs, rows, last);
    var row := Some(rows[last].value + Chunk(p));
    CoversSnoc(pages, p, ref, rows[last]);
    ResolveSnoc(pages, p, ref.value.0, ref.value.1);
    assert refs == oldRefs + [ref] && rows == oldRows + [rows[last]] && rows[last := row] == oldRows + [row];
    SplitCover(pages, oldRefs, oldRows, ref, rows[last]);
    OldRows(pages, p, oldRefs, oldRows);
    AllResolveConcat(pages, oldRefs, oldRows, [ref], [rows[last]]);
    AllResolveConcat(pages + [p], oldRefs, oldRows, [ref], [row]);
    OneRow(pages + [p], ref, row);
    AllCoverConcat(pages + [p], oldRefs, oldRows, [ref], [row]);
    AdjacentSnoc(pages, p);
    assert (pages + [p])[|pages|] == p;
    if NoAdjacentLong(pages) {
      forall i | 0 <= i < last && refs[i].Some? ensures !ReachesEnd(pages + [p], refs[i].value.0) {
        CoveredPage(pages, refs, rows, i);
        ResolveSnoc(pages, p, refs[i].value.0, refs[i].value.1);
      }
    }
  }

  lemma SplitCover(pages: seq<Page>, refs: seq<TextRef>, rows: seq<TextRow>, ref: TextRef, row: TextRow)
    requires |refs| == |rows| && AllCover(pages, refs + [ref], rows + [row])
    ensures AllCover(pages, refs, rows)
  {
    forall i | 0 <= i < |rows| ensures Covers(pages, refs[i], rows[i]) {
      assert Covers(pages, (refs + [ref])[i], (rows + [row])[i]);
    }
  }

  // ---------- the whole column ----------

  lemma WellFormedPrefix(pages: seq<Page>)
    requires pages != [] && WellFormedText(pages)
    ensures WellFormedText(pages[..|pages| - 1])
  {
    hide Values, TextRows, Chunk, ReadU16, Tag;
    var shorter := pages[..|pages| - 1];
    assert forall k | 0 <= k < |shorter| :: shorter[k] == pages[k];
  }

  lemma FaithfulPage(pages: seq<Page>, p: Page, refs: seq<TextRef>, rows: seq<TextRow>)
    requires Faithful(pages, refs, rows) && PageFits(pages, p)
    ensures ReadPage(rows, p).Some? && Faithful(pages + [p], refs + PageRefs(p, |pages|), ReadPage(rows, p).value)
  {
    hide Faithful, Values, TextRows, RowRefs, Chunk, ReadU16;
    if Tag(p) == LONG_FIRST {
      FaithfulFirst(pages, p, refs, rows);
    } else if Tag(p) == LONG_NEXT {
      FaithfulNext(pages, p, refs, rows);
      assert refs + [] == refs;
    } else {
      FaithfulNormal(pages, p, refs, rows);
    }
  }

  /** What a well-formed column asks of its next page. */
  ghost predicate PageFits(pages: seq<Page>, p: Page) {
    && (Tag(p) == LONG_NEXT ==> pages != [] && IsLong(pages[|pages| - 1]))
    && (Tag(p) == LONG_FIRST ==> Chunk(p) != [])
    && (!IsLong(p) ==> |Values(TextRows(p, Tag(p)))| <= ReadU16(p, 2))
  }

  lemma LastPageFits(pages: seq<Page>)
    requires WellFormedText(pages) && pages != []
    ensures PageFits(pages[..|pages| - 1], pages[|pages| - 1])
  {
    hide Tag, Values, TextRows, Chunk, ReadU16;
  }

  lemma {:induction false} RefsStep(pages: seq<Page>)
    requires pages != []
    ensures Refs(pages) == Refs(pages[..|pages| - 1]) + PageRefs(pages[|pages| - 1], |pages| - 1)
  {
  }

  lemma {:induction false} DecodeStep(pages: seq<Page>)
    requires pages != [] && DecodeText(pages).Some?
    ensures DecodeText(pages[..|pages| - 1]).Some?
    ensures DecodeText(pages) == ReadPage(DecodeText(pages[..|pages| - 1]).value, pages[|pages| - 1])
  {
  }

  lemma NothingFaithful()
    ensures Faithful([], Refs([]), DecodeText([]).value)
  {
  }

  lemma {:induction false} ColumnFaithful(pages: seq<Page>)
    requires WellFormedText(pages) && DecodeText(pages).Some?
    ensures Faithful(pages, Refs(pages), DecodeText(pages).value)
  {
    hide *;
    if pages == [] {
      NothingFaithful();
    } else {
      var shorter, p := pages[..|pages| - 1], pages[|pages| - 1];
      assert pages == shorter + [p];
      WellFormedPrefix(pages);
      LastPageFits(pages);
      RefsStep(pages);
      DecodeStep(pages);
      ColumnFaithful(shorter);
      FaithfulPage(shorter, p, Refs(shorter), DecodeText(shorter).value);
    }
  }

  /** The references of a column resolve to its decoded rows exactly when no long string follows another
      directly: `resolve` reads on through the next 0xffff page. */
  lemma {:induction false} LateMaterializationExact(pages: seq<Page>)
    requires WellFormedText(pages) && DecodeText(pages).Some?
    ensures |Refs(pages)| == |DecodeText(pages).value|
    ensures AllResolve(pages, Refs(pages), DecodeText(pages).value) <==> NoAdjacentLong(pages)
  {
    ColumnFaithful(pages);
  }

  /** Of two long strings in a row, the first resolves to both. */
  lemma LongNeighbour(p: Page, q: Page)
    requires Tag(p) == Tag(q) == LONG_FIRST
    ensures DecodeText([p, q]) == Some([Some(Chunk(p)), Some(Chunk(q))])
    ensures ResolveIn([p, q], 0, LONG_FIRST) == Some(Chunk(p) + Chunk(q))
  {
    hide Chunk;
    var none, one, rows := [], [p], [Some(Chunk(p))];
    assert none + [p] == one && one + [q] == [p, q] && DecodeText(none) == Some([]);
    DecodeTextSnoc(none, p);
    assert [] + rows == rows;
    DecodeTextSnoc(one, q);
    assert rows + [Some(Chunk(q))] == [Some(Chunk(p)), Some(Chunk(q))];
    assert LongRun([p, q], 2) == [] && LongRun([p, q], 1) == Chunk(q) + [] == Chunk(q);
  }
}
