/** Whole plans: the optimised executor refines the reference executor. */
module Executor {
  import opened Bags
  import opened Bytes
  import opened Pages
  import opened IntPages
  import opened TextPages
  import opened LateMaterialization
  import opened ColumnBuffers
  import opened Scan
  import opened Unchained
  import opened Join
  import opened HashJoin
  import opened Reference

  // ---------- payload rows ----------

  /** Row `i` of payload columns, as the final materialisation would write it. */
  function PayloadRow(inputs: seq<Table>, types: seq<DataType>, views: seq<seq<u64>>, i: nat): (row: Row)
    requires |types| == |views|
    ensures |row| == |views|
  {
    seq(|views|, k requires 0 <= k < |views| => if i < |views[k]| then Cell(inputs, types[k], views[k][i]) else Null)
  }

  function PayloadRows(inputs: seq<Table>, types: seq<DataType>, views: seq<seq<u64>>, n: nat): (rows: seq<Row>)
    requires |types| == |views|
    ensures |rows| == n && forall i | 0 <= i < n :: rows[i] == PayloadRow(inputs, types, views, i)
  {
    seq(n, i requires 0 <= i < n => PayloadRow(inputs, types, views, i))
  }

  /** Output rows of a list of row pairs. */
  function OutOf(attrs: seq<nat>, left: seq<Row>, right: seq<Row>, pairs: seq<Pair>): (rows: seq<Row>)
    ensures |rows| == |pairs|
  {
    seq(|pairs|, i requires 0 <= i < |pairs| => PairRow(attrs, left, right, pairs[i]))
  }

  function PairRow(attrs: seq<nat>, left: seq<Row>, right: seq<Row>, p: Pair): Row {
    if p.0 < |left| && p.1 < |right| then OutRow(attrs, left[p.0], right[p.1]) else []
  }

  lemma OutOfConcat(attrs: seq<nat>, left: seq<Row>, right: seq<Row>, ps: seq<Pair>, qs: seq<Pair>)
    ensures OutOf(attrs, left, right, ps + qs) == OutOf(attrs, left, right, ps) + OutOf(attrs, left, right, qs)
  {
    hide PairRow;
  }

  lemma {:induction false} OutOfPermuted(attrs: seq<nat>, left: seq<Row>, right: seq<Row>, ps: seq<Pair>, qs: seq<Pair>)
    requires multiset(ps) == multiset(qs)
    ensures multiset(OutOf(attrs, left, right, ps)) == multiset(OutOf(attrs, left, right, qs))
    decreases |ps|
  {
    hide PairRow;
    if ps == [] {
      SameLength(ps, qs);
    } else {
      var i := FindLast(ps, qs);
      var shorter, rest := ps[..|ps| - 1], Without(qs, i);
      OutOfPermuted(attrs, left, right, shorter, rest);
      assert ps == shorter + [ps[|ps| - 1]];
      OutOfConcat(attrs, left, right, shorter, [ps[|ps| - 1]]);
      var outs := OutOf(attrs, left, right, qs);
      WithoutBag(outs, i);
      assert Without(outs, i) == OutOf(attrs, left, right, rest);
    }
  }

  /** Gathering payloads pair by pair is joining the rows pair by pair. */
  lemma GatheredRows(inputs: seq<Table>, leftTypes: seq<DataType>, rightTypes: seq<DataType>, types: seq<DataType>,
                     left: seq<seq<u64>>, right: seq<seq<u64>>, n: nat, m: nat, attrs: seq<nat>, pairs: seq<Pair>)
    requires |leftTypes| == |left| && |rightTypes| == |right| && |types| == |attrs|
    requires forall k | 0 <= k < |left| :: |left[k]| == n
    requires forall k | 0 <= k < |right| :: |right[k]| == m
    requires forall k | 0 <= k < |attrs| :: attrs[k] < |left| + |right|
    requires forall k | 0 <= k < |attrs| ::
      types[k] == if attrs[k] < |left| then leftTypes[attrs[k]] else rightTypes[attrs[k] - |left|]
    requires InRange(pairs, n, m)
    ensures PayloadRows(inputs, types, Wanted(left, right, attrs, pairs), |pairs|) ==
      OutOf(attrs, PayloadRows(inputs, leftTypes, left, n), PayloadRows(inputs, rightTypes, right, m), pairs)
  {
    hide Cell;
    var ws := Wanted(left, right, attrs, pairs);
    var ls, rs := PayloadRows(inputs, leftTypes, left, n), PayloadRows(inputs, rightTypes, right, m);
    forall i | 0 <= i < |pairs|
      ensures PayloadRow(inputs, types, ws, i) == OutRow(attrs, ls[pairs[i].0], rs[pairs[i].1])
    {
      var l, r := PayloadRow(inputs, leftTypes, left, pairs[i].0), PayloadRow(inputs, rightTypes, right, pairs[i].1);
      forall k | 0 <= k < |attrs| ensures PayloadRow(inputs, types, ws, i)[k] == OutRow(attrs, l, r)[k] {
        WantedAt(left, right, attrs, pairs, k, i);
      }
    }
  }

  // ---------- keys ----------

  function KeyOf(d: Data): Key { if d.Int? then Some(d.i) else None }

  /** The key column of rows whose key attribute holds integers or NULL. */
  ghost predicate KeysOf(rows: seq<Row>, attr: nat, keys: seq<Key>) {
    && |keys| == |rows| <= ROW_LIMIT
    && forall i | 0 <= i < |rows| ::
         (At(rows[i], attr).Int? || At(rows[i], attr).Null?) && keys[i] == KeyOf(At(rows[i], attr))
  }

  lemma {:induction false} NoPairRows(s: JoinSpec, left: seq<Row>, right: seq<Row>, p: Row, j: u32, buildLeft: bool)
    ensures OutOf(s.attrs, left, right, PairsOf([], j, buildLeft)) == ProbeRows(s, [], p, buildLeft) == []
  {
  }

  lemma {:induction false} ProbeRowsSnoc(s: JoinSpec, build: seq<Row>, n: nat, p: Row, buildLeft: bool)
    requires 0 < n <= |build|
    ensures var (l, r) := if buildLeft then (build[n - 1], p) else (p, build[n - 1]);
      ProbeRows(s, build[..n], p, buildLeft) ==
        ProbeRows(s, build[..n - 1], p, buildLeft) + if Matches(s, l, r) then [OutRow(s.attrs, l, r)] else []
  {
    hide OutRow, Matches;
    assert build[..n][..n - 1] == build[..n - 1];
  }

  /** One more match, one more output row. */
  lemma PairRowsSnoc(s: JoinSpec, left: seq<Row>, right: seq<Row>, es: seq<Entry>, e: Entry, j: u32, buildLeft: bool)
    requires if buildLeft then e.row < |left| && j < |right| else j < |left| && e.row < |right|
    ensures var (l, r) := if buildLeft then (left[e.row], right[j]) else (left[j], right[e.row]);
      OutOf(s.attrs, left, right, PairsOf(es + [e], j, buildLeft)) ==
        OutOf(s.attrs, left, right, PairsOf(es, j, buildLeft)) + [OutRow(s.attrs, l, r)]
  {
    hide OutRow;
    PairsOfSnoc(es, e, j, buildLeft);
    OutOfConcat(s.attrs, left, right, PairsOf(es, j, buildLeft), [if buildLeft then (e.row, j) else (j, e.row)]);
  }

  /** The pairs of one probe row are the reference's output rows for it. */
  lemma {:induction false} RowPairsRows(s: JoinSpec, left: seq<Row>, right: seq<Row>, buildLeft: bool,
                                        buildKeys: seq<Key>, j: nat, n: nat, k: i32)
    requires n <= ROW_LIMIT
    requires var build := if buildLeft then left else right;
      n <= |build| && KeysOf(build, BuildAttr(s, buildLeft), buildKeys)
    requires var probe := if buildLeft then right else left;
      j < |probe| <= ROW_LIMIT && At(probe[j], ProbeAttr(s, buildLeft)) == Int(k)
    ensures var build := if buildLeft then left else right;
      var probe := if buildLeft then right else left;
      OutOf(s.attrs, left, right, PairsOf(Matching(KeyEntries(buildKeys[..n]), k), j, buildLeft))
        == ProbeRows(s, build[..n], probe[j], buildLeft)
  {
    hide OutRow, At, KeyEntries, Matching, ProbeRows, PairsOf, OutOf;
    var build := if buildLeft then left else right;
    var probe := if buildLeft then right else left;
    if n == 0 {
      NoPairRows(s, left, right, probe[j], j, buildLeft);
      NoKeyEntries();
      NoMatch(k);
      assert buildKeys[..0] == [];
    } else {
      RowPairsRows(s, left, right, buildLeft, buildKeys, j, n - 1, k);
      ProbeRowsSnoc(s, build, n, probe[j], buildLeft);
      assert buildKeys[..n] == buildKeys[..n - 1] + [buildKeys[n - 1]];
      KeyEntriesSnoc(buildKeys[..n - 1], buildKeys[n - 1]);
      if buildKeys[n - 1].Some? {
        var e := Entry(buildKeys[n - 1].value, n - 1);
        MatchingSnoc(KeyEntries(buildKeys[..n - 1]), e, k);
        if e.key == k {
          PairRowsSnoc(s, left, right, Matching(KeyEntries(buildKeys[..n - 1]), k), e, j, buildLeft);
        }
      }
    }
  }

  lemma {:induction false} NullProbe(s: JoinSpec, build: seq<Row>, p: Row, buildLeft: bool)
    requires At(p, ProbeAttr(s, buildLeft)) == Null
    ensures ProbeRows(s, build, p, buildLeft) == []
  {
    hide OutRow, At;
    if build != [] { NullProbe(s, build[..|build| - 1], p, buildLeft); }
  }

  lemma {:induction false} ProbeRowRows(s: JoinSpec, left: seq<Row>, right: seq<Row>, buildLeft: bool,
                                        buildKeys: seq<Key>, probeKeys: seq<Key>, j: nat)
    requires var (build, probe) := if buildLeft then (left, right) else (right, left);
      && KeysOf(build, BuildAttr(s, buildLeft), buildKeys) && KeysOf(probe, ProbeAttr(s, buildLeft), probeKeys)
      && j < |probe|
    ensures var (build, probe) := if buildLeft then (left, right) else (right, left);
      OutOf(s.attrs, left, right, RowPairs(KeyEntries(buildKeys), probeKeys, j, buildLeft))
        == ProbeRows(s, build, probe[j], buildLeft)
  {
    hide OutRow, At, KeyEntries, Matching, ProbeRows, PairsOf, PairRow;
    var build, probe := if buildLeft then left else right, if buildLeft then right else left;
    if probeKeys[j].None? {
      NullProbe(s, build, probe[j], buildLeft);
    } else {
      RowPairsRows(s, left, right, buildLeft, buildKeys, j, |build|, probeKeys[j].value);
      assert build[..|build|] == build && buildKeys[..|build|] == buildKeys;
    }
  }

  lemma {:induction false} RangeRows(s: JoinSpec, left: seq<Row>, right: seq<Row>, buildLeft: bool,
                                     buildKeys: seq<Key>, probeKeys: seq<Key>, n: nat)
    requires var (build, probe) := if buildLeft then (left, right) else (right, left);
      && KeysOf(build, BuildAttr(s, buildLeft), buildKeys) && KeysOf(probe, ProbeAttr(s, buildLeft), probeKeys)
      && n <= |probe|
    ensures var (build, probe) := if buildLeft then (left, right) else (right, left);
      OutOf(s.attrs, left, right, RangePairs(KeyEntries(buildKeys), probeKeys, 0, n, buildLeft))
        == ProbeAll(s, build, probe[..n], buildLeft)
  {
    hide KeyEntries, RowPairs, ProbeRows, PairRow;
    var probe := if buildLeft then right else left;
    var entries := KeyEntries(buildKeys);
    if n > 0 {
      RangeRows(s, left, right, buildLeft, buildKeys, probeKeys, n - 1);
      ProbeRowRows(s, left, right, buildLeft, buildKeys, probeKeys, n - 1);
      RangeSplit(entries, probeKeys, 0, n - 1, n, buildLeft);
      RangeFirst(entries, probeKeys, n - 1, n, buildLeft);
      RangeEmpty(entries, probeKeys, n, buildLeft);
      OutOfConcat(s.attrs, left, right, RangePairs(entries, probeKeys, 0, n - 1, buildLeft),
                  RowPairs(entries, probeKeys, n - 1, buildLeft));
      assert probe[..n][..n - 1] == probe[..n - 1];
      assert RangePairs(entries, probeKeys, n - 1, n, buildLeft) == RowPairs(entries, probeKeys, n - 1, buildLeft);
    }
  }

  /** The pairs of one thread are the reference's rows, in its order. */
  lemma JoinPairsRows(s: JoinSpec, left: seq<Row>, right: seq<Row>, buildLeft: bool, leftKeys: seq<Key>,
                      rightKeys: seq<Key>)
    requires KeysOf(left, s.leftAttr, leftKeys) && KeysOf(right, s.rightAttr, rightKeys)
    ensures OutOf(s.attrs, left, right, JoinPairs(leftKeys, rightKeys, buildLeft)) ==
      JoinRows(s, left, right, buildLeft)
  {
    hide RangePairs, ProbeAll, OutOf;
    if buildLeft {
      RangeRows(s, left, right, true, leftKeys, rightKeys, |right|);
      assert right[..|right|] == right;
    } else {
      RangeRows(s, left, right, false, rightKeys, leftKeys, |left|);
      assert left[..|left|] == left;
    }
  }

  // ---------- plans ----------

  function Attrs(plan: Plan, idx: nat): (attrs: seq<nat>)
    requires idx < |plan.nodes|
    ensures |attrs| == |plan.nodes[idx].outputAttrs|
    ensures forall k | 0 <= k < |attrs| :: attrs[k] == plan.nodes[idx].outputAttrs[k].0
  {
    var outs := plan.nodes[idx].outputAttrs;
    seq(|outs|, k requires 0 <= k < |outs| => outs[k].0)
  }

  function Types(plan: Plan, idx: nat): (types: seq<DataType>)
    requires idx < |plan.nodes|
    ensures |types| == |plan.nodes[idx].outputAttrs|
    ensures forall k | 0 <= k < |types| :: types[k] == plan.nodes[idx].outputAttrs[k].1
  {
    var outs := plan.nodes[idx].outputAttrs;
    seq(|outs|, k requires 0 <= k < |outs| => outs[k].1)
  }

  /** Children exist and come earlier in some ranking: the plan has no cycle. */
  ghost predicate Acyclic(plan: Plan, rank: seq<nat>) {
    && |rank| == |plan.nodes|
    && forall i | 0 <= i < |plan.nodes| && plan.nodes[i].data.JoinNode? ::
         var j := plan.nodes[i].data;
         j.left < |plan.nodes| && j.right < |plan.nodes| && rank[j.left] < rank[i] && rank[j.right] < rank[i]
  }

  function Spec(plan: Plan, idx: nat): JoinSpec
    requires idx < |plan.nodes| && plan.nodes[idx].data.JoinNode?
  {
    JoinSpec(plan.nodes[idx].data.leftAttr, plan.nodes[idx].data.rightAttr, Attrs(plan, idx))
  }

  /** `Table::copy_scan`: the decoded columns, row by row. */
  function StoredRow(t: Table, attrs: seq<nat>, i: nat): Row {
    seq(|attrs|, k requires 0 <= k < |attrs| =>
      if attrs[k] >= |t.columns| then Null else
        match DecodeColumn(t.columns[attrs[k]])
        case Some(ds) => At(ds, i)
        case None => Null)
  }

  function StoredRows(t: Table, attrs: seq<nat>): (rows: seq<Row>)
    ensures |rows| == t.numRows && forall i | 0 <= i < |rows| :: rows[i] == StoredRow(t, attrs, i)
  {
    seq(t.numRows, i requires 0 <= i < t.numRows => StoredRow(t, attrs, i))
  }

  /** The rows the reference executor computes for a node. */
  ghost function RefRows(plan: Plan, idx: nat, rank: seq<nat>): seq<Row>
    requires Acyclic(plan, rank) && idx < |plan.nodes|
    decreases rank[idx]
  {
    match plan.nodes[idx].data
    case ScanNode(t) => if t < |plan.inputs| then StoredRows(plan.inputs[t], Attrs(plan, idx)) else []
    case JoinNode(buildLeft, l, r, _, _) =>
      JoinRows(Spec(plan, idx), RefRows(plan, l, rank), RefRows(plan, r, rank), buildLeft)
  }

  // ---------- well-formed plans ----------

  /** A column an encoder wrote, with the table's row count and the declared type. */
  ghost predicate StoredColumn(t: Table, attr: nat, ty: DataType) {
    && attr < |t.columns| && attr < 0x100
    && t.columns[attr].dataType == ty
    && WellFormedColumn(t.columns[attr])
    && |DecodeColumn(t.columns[attr]).value| == t.numRows
  }

  ghost predicate StoredColumnOk(t: Table, attr: nat, ty: DataType) {
    StoredColumn(t, attr, ty) && Representable(t.columns[attr])
  }

  ghost predicate ScanOk(plan: Plan, idx: nat, t: nat)
    requires idx < |plan.nodes|
  {
    && t < |plan.inputs| && t < 0xff && plan.inputs[t].numRows < ROW_LIMIT
    && forall k | 0 <= k < |Attrs(plan, idx)| ::
         StoredColumnOk(plan.inputs[t], Attrs(plan, idx)[k], Types(plan, idx)[k])
  }

  function SourceType(plan: Plan, l: nat, r: nat, attr: nat): DataType
    requires l < |plan.nodes| && r < |plan.nodes| && attr < |Types(plan, l)| + |Types(plan, r)|
  {
    if attr < |Types(plan, l)| then Types(plan, l)[attr] else Types(plan, r)[attr - |Types(plan, l)|]
  }

  /** Key and output attributes exist, and types agree. */
  ghost predicate JoinOk(plan: Plan, idx: nat)
    requires idx < |plan.nodes| && plan.nodes[idx].data.JoinNode?
  {
    var j := plan.nodes[idx].data;
    && j.left < |plan.nodes| && j.right < |plan.nodes|
    && j.leftAttr < |Types(plan, j.left)| && j.rightAttr < |Types(plan, j.right)|
    && Types(plan, j.left)[j.leftAttr] == Types(plan, j.right)[j.rightAttr]
    && (forall k | 0 <= k < |Attrs(plan, idx)| :: Attrs(plan, idx)[k] < |Types(plan, j.left)| + |Types(plan, j.right)|)
    && (forall k | 0 <= k < |Attrs(plan, idx)| ::
          Types(plan, idx)[k] == SourceType(plan, j.left, j.right, Attrs(plan, idx)[k]))
  }

  ghost predicate NodeOk(plan: Plan, idx: nat, rank: seq<nat>)
    requires Acyclic(plan, rank) && idx < |plan.nodes|
  {
    && (forall k | 0 <= k < |Types(plan, idx)| :: Types(plan, idx)[k] == INT32 || Types(plan, idx)[k] == VARCHAR)
    && |RefRows(plan, idx, rank)| < ROW_LIMIT
    && match plan.nodes[idx].data
       case ScanNode(t) => ScanOk(plan, idx, t)
       case JoinNode(_, _, _, _, _) => JoinOk(plan, idx)
  }

  ghost predicate PlanOk(plan: Plan, rank: seq<nat>) {
    && Acyclic(plan, rank)
    && forall i | 0 <= i < |plan.nodes| :: NodeOk(plan, i, rank)
  }

  /** Some join below `idx` has a key that is not INT32. */
  ghost predicate TextKey(plan: Plan, idx: nat, rank: seq<nat>)
    requires PlanOk(plan, rank) && idx < |plan.nodes|
    decreases rank[idx]
  {
    plan.nodes[idx].data.JoinNode? &&
    var j := plan.nodes[idx].data;
    assert NodeOk(plan, idx, rank);
    TextKey(plan, j.left, rank) || TextKey(plan, j.right, rank) || Types(plan, j.left)[j.leftAttr] != INT32
  }

  /** A plan that joins an empty table with itself on a string column. */
  function TextJoin(): Plan {
    var scan := PlanNode(ScanNode(0), [(0, VARCHAR)]);
    Plan([scan, scan, PlanNode(JoinNode(true, 0, 1, 0, 0), [])], [Table(0, [Column(VARCHAR, [])])], 2)
  }

  lemma TextJoinNodes(plan: Plan, rank: seq<nat>)
    requires plan == TextJoin() && rank == [0, 0, 1]
    ensures |plan.nodes| == |rank| == 3 && Acyclic(plan, rank)
    ensures plan.nodes[0].data == plan.nodes[1].data == ScanNode(0) && plan.nodes[2].data == JoinNode(true, 0, 1, 0, 0)
    ensures Types(plan, 0) == Types(plan, 1) == [VARCHAR] && Types(plan, 2) == [] && Attrs(plan, 2) == []
    ensures Attrs(plan, 0) == Attrs(plan, 1) == [0]
    ensures |plan.inputs| == 1 && plan.inputs[0].numRows == 0
    ensures StoredColumnOk(plan.inputs[0], 0, VARCHAR)
  {
    assert DecodeText([]) == Some([]);
  }

  /** It is a plan as any other, but it throws. */
  lemma {:induction false} TextJoinThrows(plan: Plan, rank: seq<nat>)
    requires plan == TextJoin() && rank == [0, 0, 1]
    ensures PlanOk(plan, rank) && TextKey(plan, 2, rank)
  {
    TextJoinNodes(plan, rank);
    hide TextJoin, Types, Attrs, StoredColumnOk, Acyclic, StoredRow, OutRow, Matches;
    assert RefRows(plan, 0, rank) == [] && RefRows(plan, 1, rank) == [] && RefRows(plan, 2, rank) == [];
    assert ScanOk(plan, 0, 0) && ScanOk(plan, 1, 0) && JoinOk(plan, 2);
    hide RefRows, ScanOk, JoinOk;
    assert NodeOk(plan, 0, rank) && NodeOk(plan, 1, rank) && NodeOk(plan, 2, rank);
  }

  // ---------- what a plan asks for ----------

  /** Row `i` has, for every output attribute, the value stored at place `i` of the column it names. */
  ghost predicate ScannedAs(plan: Plan, idx: nat, t: nat, rows: seq<Row>)
    requires idx < |plan.nodes|
  {
    var outs := plan.nodes[idx].outputAttrs;
    && t < |plan.inputs| && |rows| == plan.inputs[t].numRows && Wide(rows, |outs|)
    && forall i, k | 0 <= i < |rows| && 0 <= k < |outs| ::
         && outs[k].0 < |plan.inputs[t].columns|
         && StoredAt(plan.inputs[t].columns[outs[k].0], i, rows[i][k])
  }

  ghost predicate StoredAt(c: Column, i: nat, d: Data) {
    DecodeColumn(c).Some? && i < |DecodeColumn(c).value| && DecodeColumn(c).value[i] == d
  }

  /** The rows of a node, read off the plan: a scan's rows, or one row for each pair of rows of the children with equal
      keys. */
  ghost predicate Means(plan: Plan, idx: nat, rank: seq<nat>, rows: seq<Row>)
    requires Acyclic(plan, rank) && idx < |plan.nodes|
    decreases rank[idx]
  {
    match plan.nodes[idx].data
    case ScanNode(t) => ScannedAs(plan, idx, t, rows)
    case JoinNode(buildLeft, l, r, leftAttr, rightAttr) =>
      exists left, right, pairs ::
        && Means(plan, l, rank, left) && Means(plan, r, rank, right)
        && JoinedAs(buildLeft, leftAttr, rightAttr, plan.nodes[idx].outputAttrs, left, right, rows, pairs)
  }

  lemma StoredMean(plan: Plan, idx: nat, t: nat)
    requires idx < |plan.nodes| && ScanOk(plan, idx, t)
    ensures ScannedAs(plan, idx, t, StoredRows(plan.inputs[t], Attrs(plan, idx)))
  {
    hide DecodeColumn, WellFormedColumn, Representable;
    var rows, outs := StoredRows(plan.inputs[t], Attrs(plan, idx)), plan.nodes[idx].outputAttrs;
    forall i, k | 0 <= i < |rows| && 0 <= k < |outs|
      ensures outs[k].0 < |plan.inputs[t].columns| && StoredAt(plan.inputs[t].columns[outs[k].0], i, rows[i][k])
    {
      assert StoredColumnOk(plan.inputs[t], Attrs(plan, idx)[k], Types(plan, idx)[k]);
      StoredSome(plan.inputs[t].columns[outs[k].0]);
    }
  }

  lemma StoredSome(c: Column)
    requires WellFormedColumn(c)
    ensures DecodeColumn(c).Some?
  {
  }

  /** The reference's rows are what the plan asks for. */
  lemma {:induction false} RefRowsMean(plan: Plan, idx: nat, rank: seq<nat>)
    requires PlanOk(plan, rank) && idx < |plan.nodes|
    ensures Means(plan, idx, rank, RefRows(plan, idx, rank))
    ensures Wide(RefRows(plan, idx, rank), |plan.nodes[idx].outputAttrs|)
    decreases rank[idx]
  {
    assert NodeOk(plan, idx, rank);
    hide JoinRows, JoinedAs, ScannedAs, StoredRows, NodeOk;
    match plan.nodes[idx].data
    case ScanNode(t) =>
      ScanNodeOk(plan, idx, rank, t);
      StoredMean(plan, idx, t);
      StoredWide(plan, idx, t);
    case JoinNode(buildLeft, l, r, leftAttr, rightAttr) =>
      RefRowsMean(plan, l, rank);
      RefRowsMean(plan, r, rank);
      JoinNodeOk(plan, idx, rank);
      JoinMeans(plan, idx, rank);
  }

  lemma ScanNodeOk(plan: Plan, idx: nat, rank: seq<nat>, t: nat)
    requires PlanOk(plan, rank) && idx < |plan.nodes| && plan.nodes[idx].data == ScanNode(t)
    ensures ScanOk(plan, idx, t)
  {
    assert NodeOk(plan, idx, rank);
  }

  lemma JoinNodeOk(plan: Plan, idx: nat, rank: seq<nat>)
    requires PlanOk(plan, rank) && idx < |plan.nodes| && plan.nodes[idx].data.JoinNode?
    ensures JoinOk(plan, idx)
  {
    assert NodeOk(plan, idx, rank);
  }

  lemma StoredWide(plan: Plan, idx: nat, t: nat)
    requires idx < |plan.nodes| && t < |plan.inputs|
    ensures Wide(StoredRows(plan.inputs[t], Attrs(plan, idx)), |plan.nodes[idx].outputAttrs|)
  {
  }

  lemma {:induction false} JoinMeans(plan: Plan, idx: nat, rank: seq<nat>)
    requires PlanOk(plan, rank) && idx < |plan.nodes| && plan.nodes[idx].data.JoinNode? && JoinOk(plan, idx)
    requires var j := plan.nodes[idx].data;
      && Means(plan, j.left, rank, RefRows(plan, j.left, rank))
      && Means(plan, j.right, rank, RefRows(plan, j.right, rank))
      && Wide(RefRows(plan, j.left, rank), |plan.nodes[j.left].outputAttrs|)
      && Wide(RefRows(plan, j.right, rank), |plan.nodes[j.right].outputAttrs|)
    ensures Means(plan, idx, rank, RefRows(plan, idx, rank))
    ensures Wide(RefRows(plan, idx, rank), |plan.nodes[idx].outputAttrs|)
  {
    var j, outs := plan.nodes[idx].data, plan.nodes[idx].outputAttrs;
    var left, right := RefRows(plan, j.left, rank), RefRows(plan, j.right, rank);
    var s, rows := Spec(plan, idx), RefRows(plan, idx, rank);
    JoinRefRows(plan, idx, rank);
    forall k | 0 <= k < |outs|
      ensures s.attrs[k] == outs[k].0 < |plan.nodes[j.left].outputAttrs| + |plan.nodes[j.right].outputAttrs|
    {
      assert Attrs(plan, idx)[k] < |Types(plan, j.left)| + |Types(plan, j.right)|;
    }
    JoinRowsMean(s, outs, left, right, j.buildLeft,
                 |plan.nodes[j.left].outputAttrs|, |plan.nodes[j.right].outputAttrs|);
    hide JoinRows, JoinedAs, RefRows;
    var pairs :| JoinedAs(j.buildLeft, s.leftAttr, s.rightAttr, outs, left, right, rows, pairs);
    JoinedWide(j.buildLeft, s.leftAttr, s.rightAttr, outs, left, right, rows, pairs);
    assert JoinedAs(j.buildLeft, j.leftAttr, j.rightAttr, outs, left, right, rows, pairs);
  }

  lemma JoinedWide(buildLeft: bool, leftAttr: nat, rightAttr: nat, outs: seq<(nat, DataType)>, left: seq<Row>,
                   right: seq<Row>, rows: seq<Row>, pairs: seq<(nat, nat)>)
    requires JoinedAs(buildLeft, leftAttr, rightAttr, outs, left, right, rows, pairs)
    ensures Wide(rows, |outs|)
  {
    hide KeysMeet, InProbeOrder;
    forall i | 0 <= i < |rows| ensures |rows[i]| == |outs| {
      assert IsOutput(outs, left[pairs[i].0], right[pairs[i].1], rows[i]);
    }
  }

  /** The columns of a result table, read row by row. */
  ghost predicate Tabulates(t: Table, rows: seq<Row>) {
    && |rows| == t.numRows && Wide(rows, |t.columns|)
    && forall i, k | 0 <= i < |rows| && 0 <= k < |t.columns| :: StoredAt(t.columns[k], i, rows[i][k])
  }

  /** The result holds the rows the plan asks for, in their order if `ordered`. */
  ghost predicate IsAnswer(plan: Plan, rank: seq<nat>, t: Table, ordered: bool)
    requires Acyclic(plan, rank) && plan.root < |plan.nodes|
  {
    exists rows, wanted ::
      && Tabulates(t, rows) && Means(plan, plan.root, rank, wanted)
      && multiset(rows) == multiset(wanted) && (ordered ==> rows == wanted)
  }

  // ---------- buffers that stand for rows ----------

  ghost function Rows(plan: Plan, b: ColumnBuffer): seq<Row>
    requires |b.types| == |b.columns|
    reads b.columns`pages, b.columns`srcColumn, b.columns`isZeroCopy, b.columns`numValues
  {
    PayloadRows(plan.inputs, b.types, Views(b.columns), b.numRows)
  }

  /** Columns read in place hold no -1, so they can be read with or without a NULL test. */
  ghost predicate Clean(c: ColumnT)
    reads c`srcColumn, c`isZeroCopy
  {
    c.isZeroCopy && c.srcColumn.Some? ==> Some(-1) !in DecodeInt(c.srcColumn.value)
  }

  lemma CleanKeys(c: ColumnT)
    requires c.Valid() && Clean(c)
    ensures Keys(c) == Mapped(IntOfRaw, c.View())
  {
    if c.isZeroCopy {
      var rows := DecodeInt(c.srcColumn.value);
      forall i | 0 <= i < |rows| ensures IntOfRaw(MakeI32(rows[i].Get(0))) == rows[i] {
        assert rows[i].Some? && rows[i] in rows;
        I32Payload(rows[i].value);
      }
    }
  }

  lemma ColumnKeys(plan: Plan, b: ColumnBuffer, k: nat)
    requires b.Valid() && k < |b.columns| && b.types[k] == INT32 && b.numRows < ROW_LIMIT && Clean(b.columns[k])
    ensures KeysOf(Rows(plan, b), k, Keys(b.columns[k]))
  {
    var c := b.columns[k];
    assert c.Valid() && c.numValues == b.numRows;
    CleanKeys(c);
    ViewLength(c);
    ViewAt(b.columns, k);
    hide ColumnBuffer.Valid, ColumnT.Valid, ColumnT.View, Keys, IntOfRaw, Views;
    var rows, view := Rows(plan, b), c.View();
    forall i | 0 <= i < |rows| ensures At(rows[i], k) == IntData(IntOfRaw(view[i])) {
      assert rows[i] == PayloadRow(plan.inputs, b.types, Views(b.columns), i);
    }
  }

  ghost predicate Stands(plan: Plan, idx: nat, rank: seq<nat>, b: ColumnBuffer, ordered: bool)
    requires PlanOk(plan, rank) && idx < |plan.nodes|
    reads b.columns`pages, b.columns`srcColumn, b.columns`pageOffsets, b.columns`isZeroCopy, b.columns`numValues
  {
    && b.Valid() && b.types == Types(plan, idx)
    && (forall k | 0 <= k < |b.columns| :: Clean(b.columns[k]))
    && multiset(Rows(plan, b)) == multiset(RefRows(plan, idx, rank))
    && (ordered ==> Rows(plan, b) == RefRows(plan, idx, rank))
  }

  // ---------- scan ----------

  lemma StoredCells(inputs: seq<Table>, t: nat, attr: nat, ty: DataType)
    requires t < |inputs| && t < 0xff && StoredColumn(inputs[t], attr, ty)
    ensures var c := inputs[t].columns[attr];
      && |ScanView(t, attr, c)| == inputs[t].numRows
      && DecodeColumn(c).Some? && |DecodeColumn(c).value| == inputs[t].numRows
      && (Cells(inputs, ty, ScanView(t, attr, c)) == DecodeColumn(c).value <==> Representable(c))
  {
    assert DecodeColumn(inputs[t].columns[attr]).Some?;
    hide WellFormedColumn, Representable, DecodeColumn, ScanView;
    ScanExact(inputs, t, attr);
  }

  /** A scan yields the stored rows exactly when every column it reads is representable. */
  lemma ScannedRowsExact(inputs: seq<Table>, t: nat, attrs: seq<nat>, types: seq<DataType>, views: seq<seq<u64>>)
    requires t < |inputs| && t < 0xff && |attrs| == |types| == |views|
    requires forall k | 0 <= k < |attrs| ::
      attrs[k] < |inputs[t].columns| && StoredColumn(inputs[t], attrs[k], types[k])
    requires forall k | 0 <= k < |attrs| :: views[k] == ScanView(t, attrs[k], inputs[t].columns[attrs[k]])
    ensures PayloadRows(inputs, types, views, inputs[t].numRows) == StoredRows(inputs[t], attrs)
      <==> forall k | 0 <= k < |attrs| :: Representable(inputs[t].columns[attrs[k]])
  {
    hide WellFormedColumn, Representable, DecodeColumn, ScanView, Cell, StoredColumn;
    var n, columns := inputs[t].numRows, inputs[t].columns;
    var payload, stored := PayloadRows(inputs, types, views, n), StoredRows(inputs[t], attrs);
    forall i, k | 0 <= i < n && 0 <= k < |attrs|
      ensures |Cells(inputs, types[k], views[k])| == n && payload[i][k] == Cells(inputs, types[k], views[k])[i]
      ensures DecodeColumn(columns[attrs[k]]).Some? && stored[i][k] == At(DecodeColumn(columns[attrs[k]]).value, i)
    {
      StoredCells(inputs, t, attrs[k], types[k]);
    }
    if forall k | 0 <= k < |attrs| :: Representable(columns[attrs[k]]) {
      forall i | 0 <= i < n ensures payload[i] == stored[i] {
        forall k | 0 <= k < |attrs| ensures payload[i][k] == stored[i][k] {
          StoredCells(inputs, t, attrs[k], types[k]);
        }
      }
    }
    if payload == stored {
      forall k | 0 <= k < |attrs| ensures Representable(columns[attrs[k]]) {
        StoredCells(inputs, t, attrs[k], types[k]);
        var cells, data := Cells(inputs, types[k], views[k]), DecodeColumn(columns[attrs[k]]).value;
        forall i | 0 <= i < n ensures cells[i] == data[i] { assert payload[i][k] == stored[i][k]; }
        assert cells == data;
      }
    }
  }

  ghost predicate ScannedColumn(inputs: seq<Table>, t: nat, attr: nat, c: ColumnT)
    requires t < |inputs|
    reads c`pages, c`srcColumn, c`pageOffsets, c`isZeroCopy, c`numValues
  {
    && attr < |inputs[t].columns|
    && c.Valid() && Clean(c) && c.numValues == inputs[t].numRows
    && c.View() == ScanView(t, attr, inputs[t].columns[attr])
  }

  lemma IntCount(c: Column)
    ensures c.dataType == INT32 ==> DecodeColumn(c).Some? && |DecodeColumn(c).value| == |DecodeInt(c.pages)|
  {
    hide DecodeInt;
  }

  lemma CleanScan(t: Table, attr: nat, ty: DataType, c: ColumnT)
    requires StoredColumnOk(t, attr, ty)
    requires c.isZeroCopy ==> t.columns[attr].dataType == INT32 && c.srcColumn == Some(t.columns[attr].pages)
    ensures Clean(c)
  {
    hide DecodeInt, WellFormedColumn;
  }

  lemma ScannedViews(inputs: seq<Table>, t: nat, attrs: seq<nat>, b: ColumnBuffer)
    requires t < |inputs| && |attrs| == |b.columns| == |b.types| && b.numRows == inputs[t].numRows
    requires forall k | 0 <= k < |attrs| :: ScannedColumn(inputs, t, attrs[k], b.columns[k])
    ensures b.Valid()
    ensures forall k | 0 <= k < |attrs| :: attrs[k] < |inputs[t].columns| && Clean(b.columns[k])
    ensures forall k | 0 <= k < |attrs| :: Views(b.columns)[k] == ScanView(t, attrs[k], inputs[t].columns[attrs[k]])
  {
    hide ScanView, ColumnT.Valid, ColumnT.View, Clean, Views;
    forall k | 0 <= k < |attrs|
      ensures Views(b.columns)[k] == ScanView(t, attrs[k], inputs[t].columns[attrs[k]])
    {
      assert ScannedColumn(inputs, t, attrs[k], b.columns[k]);
      ViewAt(b.columns, k);
    }
  }

  lemma ScanStands(plan: Plan, idx: nat, rank: seq<nat>, b: ColumnBuffer, ordered: bool)
    requires PlanOk(plan, rank) && idx < |plan.nodes| && plan.nodes[idx].data.ScanNode?
    requires ScanOk(plan, idx, plan.nodes[idx].data.baseTableId)
    requires b.types == Types(plan, idx) && |b.columns| == |b.types|
    requires b.numRows == plan.inputs[plan.nodes[idx].data.baseTableId].numRows
    requires forall k | 0 <= k < |b.columns| ::
      ScannedColumn(plan.inputs, plan.nodes[idx].data.baseTableId, Attrs(plan, idx)[k], b.columns[k])
    ensures Stands(plan, idx, rank, b, ordered)
  {
    var t := plan.nodes[idx].data.baseTableId;
    hide PlanOk, Acyclic, Views, ScanView, ScannedColumn, StoredColumnOk, PayloadRows, StoredRows, ColumnT.Valid, Clean,
      ColumnBuffer.Valid, Attrs, Types;
    ScannedViews(plan.inputs, t, Attrs(plan, idx), b);
    ScannedRowsExact(plan.inputs, t, Attrs(plan, idx), Types(plan, idx), Views(b.columns));
  }

  method ScanColumns(inputs: seq<Table>, t: nat, attrs: seq<nat>, ghost types: seq<DataType>)
    returns (cols: seq<ColumnT>)
    requires t < |inputs| && t < 0xff && |attrs| == |types|
    requires forall k | 0 <= k < |attrs| :: StoredColumnOk(inputs[t], attrs[k], types[k])
    ensures |cols| == |attrs|
    ensures forall k | 0 <= k < |cols| :: fresh(cols[k]) && ScannedColumn(inputs, t, attrs[k], cols[k])
  {
    hide *;
    cols := [];
    for k := 0 to |attrs|
      invariant |cols| == k
      invariant forall j | 0 <= j < k ::
        fresh(cols[j]) && allocated(cols[j]) && ScannedColumn(inputs, t, attrs[j], cols[j])
    {
      var out := ScanStored(inputs, t, attrs[k], types[k]);
      cols := cols + [out];
    }
  }

  lemma ScanFacts(plan: Plan, idx: nat, rank: seq<nat>)
    requires PlanOk(plan, rank) && idx < |plan.nodes| && plan.nodes[idx].data.ScanNode?
    ensures var t := plan.nodes[idx].data.baseTableId;
      && ScanOk(plan, idx, t) && t < |plan.inputs| && t < 0xff && |Attrs(plan, idx)| == |Types(plan, idx)|
      && forall k | 0 <= k < |Attrs(plan, idx)| ::
         StoredColumnOk(plan.inputs[t], Attrs(plan, idx)[k], Types(plan, idx)[k])
  {
    hide StoredColumnOk;
    assert NodeOk(plan, idx, rank);
  }

  /** `scan_columnar_to_columnbuffer` */
  method ExecuteScan(plan: Plan, idx: nat, ghost rank: seq<nat>, ghost ordered: bool) returns (b: ColumnBuffer)
    requires PlanOk(plan, rank) && idx < |plan.nodes| && plan.nodes[idx].data.ScanNode?
    ensures forall k | 0 <= k < |b.columns| :: fresh(b.columns[k])
    ensures Stands(plan, idx, rank, b, ordered)
  {
    ScanFacts(plan, idx, rank);
    hide *;
    var t := plan.nodes[idx].data.baseTableId;
    var cols := ScanColumns(plan.inputs, t, Attrs(plan, idx), Types(plan, idx));
    b := ColumnBuffer(cols, plan.inputs[t].numRows, Types(plan, idx));
    ScanStands(plan, idx, rank, b, ordered);
  }

  method ScanStored(inputs: seq<Table>, t: nat, attr: nat, ghost ty: DataType) returns (out: ColumnT)
    requires t < |inputs| && t < 0xff && StoredColumnOk(inputs[t], attr, ty)
    ensures fresh(out) && ScannedColumn(inputs, t, attr, out)
  {
    var c := inputs[t].columns[attr];
    StoredCells(inputs, t, attr, ty);
    IntCount(c);
    hide WellFormedColumn, Representable, DecodeColumn, DecodeInt, ScanView, ColumnT.Valid, ColumnT.View, Clean;
    out := ScanColumn(t, attr, c, inputs[t].numRows);
    ViewLength(out);
    CleanScan(inputs[t], attr, ty, out);
  }

  // ---------- join ----------

  /** One join over buffers that stand for the reference's inputs: what it gathers stands for the reference's output. */
  lemma JoinRefines(s: JoinSpec, left: seq<Row>, right: seq<Row>, refLeft: seq<Row>, refRight: seq<Row>,
                    buildLeft: bool,
                    leftKeys: seq<Key>, rightKeys: seq<Key>, pairs: seq<Pair>, ordered: bool)
    requires KeysOf(left, s.leftAttr, leftKeys) && KeysOf(right, s.rightAttr, rightKeys)
    requires multiset(left) == multiset(refLeft) && multiset(right) == multiset(refRight)
    requires multiset(pairs) == multiset(JoinPairs(leftKeys, rightKeys, buildLeft))
    requires ordered ==> left == refLeft && right == refRight && pairs == JoinPairs(leftKeys, rightKeys, buildLeft)
    ensures var rows, ref := OutOf(s.attrs, left, right, pairs), JoinRows(s, refLeft, refRight, buildLeft);
      multiset(rows) == multiset(ref) && (ordered ==> rows == ref)
  {
    var joined := JoinPairs(leftKeys, rightKeys, buildLeft);
    hide JoinPairs, JoinRows, OutOf, KeysOf;
    JoinPairsRows(s, left, right, buildLeft, leftKeys, rightKeys);
    OutOfPermuted(s.attrs, left, right, pairs, joined);
    JoinRowsPermuted(s, left, right, refLeft, refRight, buildLeft, buildLeft);
  }

  lemma {:induction false} NodeFacts(plan: Plan, idx: nat, rank: seq<nat>)
    requires PlanOk(plan, rank) && idx < |plan.nodes| && plan.nodes[idx].data.JoinNode?
    ensures var j := plan.nodes[idx].data;
      && j.left < |plan.nodes| && j.right < |plan.nodes| && rank[j.left] < rank[idx] && rank[j.right] < rank[idx]
      && |RefRows(plan, j.left, rank)| < ROW_LIMIT && |RefRows(plan, j.right, rank)| < ROW_LIMIT
      && JoinOk(plan, idx)
      && (TextKey(plan, idx, rank) <==> TextKey(plan, j.left, rank) || TextKey(plan, j.right, rank)
                                          || Types(plan, j.left)[j.leftAttr] != INT32)
  {
    hide RefRows, JoinOk;
    assert NodeOk(plan, idx, rank);
    var j := plan.nodes[idx].data;
    assert NodeOk(plan, j.left, rank) && NodeOk(plan, j.right, rank);
  }

  lemma {:induction false} StandsCount(plan: Plan, idx: nat, rank: seq<nat>, b: ColumnBuffer, ordered: bool)
    requires PlanOk(plan, rank) && idx < |plan.nodes| && Stands(plan, idx, rank, b, ordered)
    ensures b.numRows == |RefRows(plan, idx, rank)|
  {
    SameLength(Rows(plan, b), RefRows(plan, idx, rank));
  }

  lemma JoinFacts(plan: Plan, idx: nat)
    requires idx < |plan.nodes| && plan.nodes[idx].data.JoinNode? && JoinOk(plan, idx)
    ensures var j := plan.nodes[idx].data;
      && j.left < |plan.nodes| && j.right < |plan.nodes|
      && j.leftAttr < |Types(plan, j.left)| && j.rightAttr < |Types(plan, j.right)|
      && Types(plan, j.left)[j.leftAttr] == Types(plan, j.right)[j.rightAttr]
  {
  }

  /** What a key column of a buffer that stands for a node's rows tells the join. */
  lemma {:induction false} StandsKeys(plan: Plan, idx: nat, rank: seq<nat>, b: ColumnBuffer, ordered: bool, k: nat)
    requires PlanOk(plan, rank) && idx < |plan.nodes| && Stands(plan, idx, rank, b, ordered)
    requires k < |Types(plan, idx)| && Types(plan, idx)[k] == INT32
    ensures b.Valid() && |b.columns| == |b.types| && b.types == Types(plan, idx) && b.numRows < ROW_LIMIT
    ensures KeysOf(Rows(plan, b), k, Keys(b.columns[k]))
    ensures multiset(Rows(plan, b)) == multiset(RefRows(plan, idx, rank))
    ensures ordered ==> Rows(plan, b) == RefRows(plan, idx, rank)
    ensures |Views(b.columns)| == |b.columns| && forall i | 0 <= i < |b.columns| :: |Views(b.columns)[i]| == b.numRows
  {
    hide RefRows, Views, Keys, KeysOf, Types, ColumnT.View, PayloadRows;
    assert NodeOk(plan, idx, rank);
    StandsCount(plan, idx, rank, b, ordered);
    assert Clean(b.columns[k]);
    ColumnKeys(plan, b, k);
    BufferViews(b);
  }

  /** The type of every output attribute is that of its source. */
  lemma SourceTypes(plan: Plan, idx: nat)
    requires idx < |plan.nodes| && plan.nodes[idx].data.JoinNode? && JoinOk(plan, idx)
    ensures |Types(plan, idx)| == |Attrs(plan, idx)|
    ensures var lefts, rights := Types(plan, plan.nodes[idx].data.left), Types(plan, plan.nodes[idx].data.right);
      forall k | 0 <= k < |Attrs(plan, idx)| ::
        Attrs(plan, idx)[k] < |lefts| + |rights|
        && Types(plan, idx)[k] ==
             if Attrs(plan, idx)[k] < |lefts| then lefts[Attrs(plan, idx)[k]] else rights[Attrs(plan, idx)[k] - |lefts|]
  {
  }

  /** Gathering the columns of a join node is joining the rows they stand for. */
  lemma GatheredNode(plan: Plan, idx: nat, leftViews: seq<seq<u64>>, rightViews: seq<seq<u64>>, n: nat, m: nat,
                     pairs: seq<Pair>)
    requires idx < |plan.nodes| && plan.nodes[idx].data.JoinNode? && JoinOk(plan, idx)
    requires var j := plan.nodes[idx].data;
      |Types(plan, j.left)| == |leftViews| && |Types(plan, j.right)| == |rightViews|
    requires forall k | 0 <= k < |leftViews| :: |leftViews[k]| == n
    requires forall k | 0 <= k < |rightViews| :: |rightViews[k]| == m
    requires InRange(pairs, n, m)
    ensures |Types(plan, idx)| == |Attrs(plan, idx)|
    ensures forall k | 0 <= k < |Attrs(plan, idx)| :: Attrs(plan, idx)[k] < |leftViews| + |rightViews|
    ensures var j := plan.nodes[idx].data;
      PayloadRows(plan.inputs, Types(plan, idx), Wanted(leftViews, rightViews, Attrs(plan, idx), pairs), |pairs|) ==
        OutOf(Attrs(plan, idx), PayloadRows(plan.inputs, Types(plan, j.left), leftViews, n),
              PayloadRows(plan.inputs, Types(plan, j.right), rightViews, m), pairs)
  {
    SourceTypes(plan, idx);
    hide Wanted, PayloadRows, OutOf, InRange, Attrs, Types, JoinOk, SourceType;
    var j := plan.nodes[idx].data;
    GatheredRows(plan.inputs, Types(plan, j.left), Types(plan, j.right), Types(plan, idx), leftViews, rightViews, n, m,
                 Attrs(plan, idx), pairs);
  }

  /** Columns in memory with the right payloads stand for the node's rows. */
  lemma {:induction false} MaterialisedStands(plan: Plan, idx: nat, rank: seq<nat>, b: ColumnBuffer, ordered: bool)
    requires PlanOk(plan, rank) && idx < |plan.nodes|
    requires b.Valid() && b.types == Types(plan, idx)
    requires forall k | 0 <= k < |b.columns| :: !b.columns[k].isZeroCopy
    requires multiset(Rows(plan, b)) == multiset(RefRows(plan, idx, rank))
    requires (ordered ==> Rows(plan, b) == RefRows(plan, idx, rank))
    ensures Stands(plan, idx, rank, b, ordered)
  {
    hide Rows, RefRows, PlanOk, Acyclic, Types, ColumnT.Valid, ColumnBuffer.Valid;
  }

  /** Gathered columns stand for the join node's rows. */
  lemma {:induction false} JoinStands(plan: Plan, idx: nat, rank: seq<nat>, left: ColumnBuffer, right: ColumnBuffer,
                                      b: ColumnBuffer, leftViews: seq<seq<u64>>, rightViews: seq<seq<u64>>,
                                      pairs: seq<Pair>, ordered: bool)
    requires PlanOk(plan, rank) && idx < |plan.nodes| && plan.nodes[idx].data.JoinNode? && JoinOk(plan, idx)
    requires var j := plan.nodes[idx].data; left.types == Types(plan, j.left) && right.types == Types(plan, j.right)
    requires |left.types| == |leftViews| && |right.types| == |rightViews|
    requires forall k | 0 <= k < |leftViews| :: |leftViews[k]| == left.numRows
    requires forall k | 0 <= k < |rightViews| :: |rightViews[k]| == right.numRows
    requires InRange(pairs, left.numRows, right.numRows)
    requires b.Valid() && b.types == Types(plan, idx) && |b.types| == |b.columns| && b.numRows == |pairs|
    requires forall k | 0 <= k < |b.columns| :: !b.columns[k].isZeroCopy
    requires Views(b.columns) == Wanted(leftViews, rightViews, Attrs(plan, idx), pairs)
    requires var rows := OutOf(Attrs(plan, idx), PayloadRows(plan.inputs, left.types, leftViews, left.numRows),
                               PayloadRows(plan.inputs, right.types, rightViews, right.numRows), pairs);
      multiset(rows) == multiset(RefRows(plan, idx, rank)) && (ordered ==> rows == RefRows(plan, idx, rank))
    ensures Stands(plan, idx, rank, b, ordered)
  {
    hide *;
    GatheredNode(plan, idx, leftViews, rightViews, left.numRows, right.numRows, pairs);
    RowsAre(plan, b);
    MaterialisedStands(plan, idx, rank, b, ordered);
  }

  lemma {:induction false} JoinRefRows(plan: Plan, idx: nat, rank: seq<nat>)
    requires Acyclic(plan, rank) && idx < |plan.nodes| && plan.nodes[idx].data.JoinNode?
    ensures var j := plan.nodes[idx].data;
      RefRows(plan, idx, rank) ==
        JoinRows(Spec(plan, idx), RefRows(plan, j.left, rank), RefRows(plan, j.right, rank), j.buildLeft)
  {
    hide JoinRows;
  }

  lemma AttrsInRange(plan: Plan, idx: nat)
    requires idx < |plan.nodes| && plan.nodes[idx].data.JoinNode? && JoinOk(plan, idx)
    ensures var j := plan.nodes[idx].data;
      && |Types(plan, idx)| == |Attrs(plan, idx)|
      && forall k | 0 <= k < |Attrs(plan, idx)| :: Attrs(plan, idx)[k] < |Types(plan, j.left)| + |Types(plan, j.right)|
  {
  }

  /** `execute_hash_join` once both inputs are computed. */
  method ExecuteJoin(plan: Plan, idx: nat, left: ColumnBuffer, right: ColumnBuffer, numThreads: nat,
                     ghost rank: seq<nat>, ghost ordered: bool)
    returns (b: ColumnBuffer)
    requires PlanOk(plan, rank) && idx < |plan.nodes| && plan.nodes[idx].data.JoinNode? && JoinOk(plan, idx)
    requires var j := plan.nodes[idx].data;
      && Types(plan, j.left)[j.leftAttr] == INT32
      && Stands(plan, j.left, rank, left, ordered) && Stands(plan, j.right, rank, right, ordered)
    requires numThreads > 0 && (ordered ==> numThreads == 1)
    modifies left.columns`cachedPageIdx, right.columns`cachedPageIdx
    ensures forall k | 0 <= k < |b.columns| :: fresh(b.columns[k])
    ensures Stands(plan, idx, rank, b, ordered)
  {
    var j := plan.nodes[idx].data;
    var attrs, types := Attrs(plan, idx), Types(plan, idx);
    JoinFacts(plan, idx);
    AttrsInRange(plan, idx);
    assert Acyclic(plan, rank);
    hide *;
    JoinRefRows(plan, idx, rank);
    StandsKeys(plan, j.left, rank, left, ordered, j.leftAttr);
    StandsKeys(plan, j.right, rank, right, ordered, j.rightAttr);
    ghost var leftViews, rightViews := Views(left.columns), Views(right.columns);
    ghost var leftRows, rightRows := Rows(plan, left), Rows(plan, right);
    RowsAre(plan, left);
    RowsAre(plan, right);
    ghost var leftKeys, rightKeys := Keys(left.columns[j.leftAttr]), Keys(right.columns[j.rightAttr]);
    ghost var pairs;
    b, pairs := RunInt32(left, right, j.leftAttr, j.rightAttr, j.buildLeft, attrs, types, numThreads);
    JoinInRange(leftKeys, rightKeys, j.buildLeft, pairs);
    JoinRefines(Spec(plan, idx), leftRows, rightRows, RefRows(plan, j.left, rank), RefRows(plan, j.right, rank),
                j.buildLeft, leftKeys, rightKeys, pairs, ordered);
    JoinStands(plan, idx, rank, left, right, b, leftViews, rightViews, pairs, ordered);
  }

  lemma RowsAre(plan: Plan, b: ColumnBuffer)
    requires |b.types| == |b.columns|
    ensures Rows(plan, b) == PayloadRows(plan.inputs, b.types, Views(b.columns), b.numRows)
  {
  }

  /** Every node probes with at least one thread; `ordered` promises exactly one. */
  ghost predicate ThreadsOk(plan: Plan, threads: seq<nat>, ordered: bool) {
    && |threads| == |plan.nodes|
    && forall i | 0 <= i < |threads| :: threads[i] > 0 && (ordered ==> threads[i] == 1)
  }

  lemma {:induction false} NoTextKey(plan: Plan, idx: nat, rank: seq<nat>)
    requires PlanOk(plan, rank) && idx < |plan.nodes| && plan.nodes[idx].data.ScanNode?
    ensures !TextKey(plan, idx, rank)
  {
  }

  /** `execute_impl` and `execute_hash_join`: `None` is the error for a join key that is not INT32. */
  method ExecuteNode(plan: Plan, idx: nat, threads: seq<nat>, ghost rank: seq<nat>, ghost ordered: bool)
    returns (r: Option<ColumnBuffer>)
    requires PlanOk(plan, rank) && idx < |plan.nodes| && ThreadsOk(plan, threads, ordered)
    ensures r.None? <==> TextKey(plan, idx, rank)
    ensures r.Some? ==> forall k | 0 <= k < |r.value.columns| :: fresh(r.value.columns[k])
    ensures r.Some? ==> Stands(plan, idx, rank, r.value, ordered)
    decreases rank[idx], 1
  {
    if plan.nodes[idx].data.ScanNode? {
      NoTextKey(plan, idx, rank);
      hide *;
      var b := ExecuteScan(plan, idx, rank, ordered);
      r := Some(b);
    } else {
      hide *;
      r := ExecuteHashJoin(plan, idx, threads, rank, ordered);
    }
  }

  method ExecuteHashJoin(plan: Plan, idx: nat, threads: seq<nat>, ghost rank: seq<nat>, ghost ordered: bool)
    returns (r: Option<ColumnBuffer>)
    requires PlanOk(plan, rank) && idx < |plan.nodes|
    requires plan.nodes[idx].data.JoinNode? && ThreadsOk(plan, threads, ordered)
    ensures r.None? <==> TextKey(plan, idx, rank)
    ensures r.Some? ==> forall k | 0 <= k < |r.value.columns| :: fresh(r.value.columns[k])
    ensures r.Some? ==> Stands(plan, idx, rank, r.value, ordered)
    decreases rank[idx], 0
  {
    NodeFacts(plan, idx, rank);
    JoinFacts(plan, idx);
    assert threads[idx] > 0 && (ordered ==> threads[idx] == 1);
    hide *;
    var j := plan.nodes[idx].data;
    var left := ExecuteNode(plan, j.left, threads, rank, ordered);
    if left.None? { return None; }
    var right := ExecuteNode(plan, j.right, threads, rank, ordered);
    if right.None? { return None; }
    var keyType := if j.buildLeft then Types(plan, j.left)[j.leftAttr] else Types(plan, j.right)[j.rightAttr];
    if keyType != INT32 { return None; }
    var b := ExecuteJoin(plan, idx, left.value, right.value, threads[idx], rank, ordered);
    r := Some(b);
  }

  // ---------- the result table ----------

  function AllColumns(n: nat): (attrs: seq<nat>)
    ensures |attrs| == n && forall k | 0 <= k < n :: attrs[k] == k
  {
    seq(n, k requires 0 <= k < n => k)
  }

  /** The rows of a result table, as `Table::from_columnar` reads them. */
  function TableRows(t: Table): seq<Row> { StoredRows(t, AllColumns(|t.columns|)) }

  /** A result with the node's types whose columns all decode to its row count. */
  ghost predicate ResultShape(plan: Plan, idx: nat, t: Table)
    requires idx < |plan.nodes|
  {
    && |t.columns| == |Types(plan, idx)|
    && (forall k | 0 <= k < |t.columns| :: t.columns[k].dataType == Types(plan, idx)[k])
    && (forall k | 0 <= k < |t.columns| ::
          DecodeColumn(t.columns[k]).Some? && |DecodeColumn(t.columns[k]).value| == t.numRows)
  }

  lemma FinalRows(plan: Plan, b: ColumnBuffer, t: Table, views: seq<seq<u64>>)
    requires |b.types| == |b.columns| == |t.columns| == |views| && t.numRows == b.numRows
    requires forall k | 0 <= k < |views| :: |views[k]| == b.numRows
    requires forall k | 0 <= k < |views| :: DecodeColumn(t.columns[k]) == Some(Cells(plan.inputs, b.types[k], views[k]))
    ensures TableRows(t) == PayloadRows(plan.inputs, b.types, views, b.numRows)
  {
    hide Cell, DecodeColumn;
    var attrs := AllColumns(|t.columns|);
    forall i | 0 <= i < b.numRows ensures StoredRow(t, attrs, i) == PayloadRow(plan.inputs, b.types, views, i) {
      forall k | 0 <= k < |views| ensures StoredRow(t, attrs, i)[k] == PayloadRow(plan.inputs, b.types, views, i)[k] {
        assert At(Cells(plan.inputs, b.types[k], views[k]), i) == Cell(plan.inputs, b.types[k], views[k][i]);
      }
    }
  }

  lemma BufferColumn(b: ColumnBuffer, k: nat)
    requires b.Valid() && k < |b.columns|
    ensures |b.types| == |b.columns| && b.columns[k].Valid() && b.columns[k].numValues == b.numRows
    ensures Views(b.columns)[k] == b.columns[k].View() && |b.columns[k].View()| == b.numRows
  {
    hide ColumnT.Valid, ColumnT.View, Views;
    ViewLength(b.columns[k]);
    ViewAt(b.columns, k);
  }

  method FinalizeAt(plan: Plan, b: ColumnBuffer, k: nat) returns (c: Column)
    requires b.Valid() && |b.types| == |b.columns| && k < |b.columns| && (b.types[k] == INT32 || b.types[k] == VARCHAR)
    modifies b.columns`cachedPageIdx
    ensures c.dataType == b.types[k]
    ensures DecodeColumn(c) == Some(Cells(plan.inputs, b.types[k], old(Views(b.columns))[k]))
    ensures b.Valid() && Views(b.columns) == old(Views(b.columns))
  {
    hide *;
    BufferColumn(b, k);
    c := FinalizeColumn(plan.inputs, b.types[k], b.columns[k], b.numRows);
    assert b.numRows == 0 ==> old(b.columns[k].View()) == [];
  }

  /** Finished columns decode to the cells of their payloads. */
  ghost predicate Written(inputs: seq<Table>, types: seq<DataType>, views: seq<seq<u64>>, columns: seq<Column>) {
    && |columns| <= |types| == |views|
    && (forall j | 0 <= j < |columns| :: columns[j].dataType == types[j])
    && (forall j | 0 <= j < |columns| :: DecodeColumn(columns[j]) == Some(Cells(inputs, types[j], views[j])))
  }

  lemma WrittenSnoc(inputs: seq<Table>, types: seq<DataType>, views: seq<seq<u64>>, columns: seq<Column>, c: Column)
    requires Written(inputs, types, views, columns) && |columns| < |types|
    requires c.dataType == types[|columns|]
    requires DecodeColumn(c) == Some(Cells(inputs, types[|columns|], views[|columns|]))
    ensures Written(inputs, types, views, columns + [c])
  {
    hide DecodeColumn, Cells;
  }

  method FinalizeColumns(plan: Plan, b: ColumnBuffer, ghost views: seq<seq<u64>>) returns (columns: seq<Column>)
    requires b.Valid() && Views(b.columns) == views
    requires forall k | 0 <= k < |b.types| :: b.types[k] == INT32 || b.types[k] == VARCHAR
    modifies b.columns`cachedPageIdx
    ensures |columns| == |b.types| && Written(plan.inputs, b.types, views, columns)
  {
    assert |b.types| == |b.columns|;
    columns := [];
    assert Written(plan.inputs, b.types, views, columns);
    hide *;
    for k := 0 to |b.columns|
      invariant |columns| == k && b.Valid() && Views(b.columns) == views
      invariant Written(plan.inputs, b.types, views, columns)
    {
      var c := FinalizeAt(plan, b, k);
      WrittenSnoc(plan.inputs, b.types, views, columns, c);
      columns := columns + [c];
    }
  }

  /** `finalize_columnbuffer_to_columnar` */
  method FinalizeTable(plan: Plan, idx: nat, b: ColumnBuffer) returns (t: Table)
    requires idx < |plan.nodes| && b.Valid() && b.types == Types(plan, idx)
    requires forall k | 0 <= k < |b.types| :: b.types[k] == INT32 || b.types[k] == VARCHAR
    modifies b.columns`cachedPageIdx
    ensures ResultShape(plan, idx, t)
    ensures TableRows(t) == old(Rows(plan, b))
  {
    ghost var views := Views(b.columns);
    BufferViews(b);
    hide DecodeColumn, Views, TableRows, PayloadRows, Cells, ColumnBuffer.Valid;
    var columns := FinalizeColumns(plan, b, views);
    t := Table(b.numRows, columns);
    FinalRows(plan, b, t, views);
    CellCounts(plan.inputs, b.types, views, b.numRows);
  }

  lemma BufferViews(b: ColumnBuffer)
    requires b.Valid()
    ensures forall k | 0 <= k < |b.columns| :: |Views(b.columns)[k]| == b.numRows
  {
    hide ColumnT.Valid, ColumnT.View, Views;
    forall k | 0 <= k < |b.columns| ensures |Views(b.columns)[k]| == b.numRows {
      BufferColumn(b, k);
    }
  }

  lemma CellCounts(inputs: seq<Table>, types: seq<DataType>, views: seq<seq<u64>>, n: nat)
    requires |types| == |views| && forall k | 0 <= k < |views| :: |views[k]| == n
    ensures forall k | 0 <= k < |views| :: |Cells(inputs, types[k], views[k])| == n
  {
  }

  /** `execute`: for any number of threads at each join and any interleaving of them, the reference's bag of rows;
      with one thread at each join, the reference's rows in order. */
  method Execute(plan: Plan, threads: seq<nat>, ghost rank: seq<nat>, ghost ordered: bool) returns (r: Option<Table>)
    requires PlanOk(plan, rank) && plan.root < |plan.nodes| && ThreadsOk(plan, threads, ordered)
    ensures r.None? <==> TextKey(plan, plan.root, rank)
    ensures r.Some? ==> ResultShape(plan, plan.root, r.value)
    ensures r.Some? ==> multiset(TableRows(r.value)) == multiset(RefRows(plan, plan.root, rank))
    ensures r.Some? && ordered ==> TableRows(r.value) == RefRows(plan, plan.root, rank)
    ensures r.Some? ==> IsAnswer(plan, rank, r.value, ordered)
  {
    hide RefRows, TextKey, ResultShape, TableRows, IsAnswer;
    var b := ExecuteNode(plan, plan.root, threads, rank, ordered);
    if b.None? { return None; }
    assert NodeOk(plan, plan.root, rank);
    var t := FinalizeTable(plan, plan.root, b.value);
    ExecutedAnswers(plan, rank, t, ordered);
    r := Some(t);
  }

  lemma {:induction false} ExecutedAnswers(plan: Plan, rank: seq<nat>, t: Table, ordered: bool)
    requires PlanOk(plan, rank) && plan.root < |plan.nodes| && ResultShape(plan, plan.root, t)
    requires multiset(TableRows(t)) == multiset(RefRows(plan, plan.root, rank))
    requires ordered ==> TableRows(t) == RefRows(plan, plan.root, rank)
    ensures IsAnswer(plan, rank, t, ordered)
  {
    RefRowsMean(plan, plan.root, rank);
    RowsTabulate(plan, t);
    hide RefRows, TableRows, Tabulates, Means, PlanOk, ResultShape;
    assert Tabulates(t, TableRows(t)) && Means(plan, plan.root, rank, RefRows(plan, plan.root, rank));
  }

  lemma RowsTabulate(plan: Plan, t: Table)
    requires plan.root < |plan.nodes| && ResultShape(plan, plan.root, t)
    ensures Tabulates(t, TableRows(t))
  {
    hide DecodeColumn;
    var rows := TableRows(t);
    forall i, k | 0 <= i < |rows| && 0 <= k < |t.columns| ensures StoredAt(t.columns[k], i, rows[i][k]) {
      assert DecodeColumn(t.columns[k]).Some?;
    }
  }

  // ---------- the reference executor ----------

  lemma PaddedExact<T>(rows: seq<Option<T>>)
    ensures Padded(rows, |rows|) == rows && !Overfull(rows, |rows|)
  {
  }

  ghost predicate Readable(c: Column, numRows: nat) {
    && (c.dataType == INT32 || c.dataType == VARCHAR)
    && DecodeColumn(c).Some? && |DecodeColumn(c).value| == numRows
  }

  /** One column of `copy_scan`. */
  method DecodeStored(c: Column, numRows: nat) returns (ds: seq<Data>)
    requires Readable(c, numRows)
    ensures |ds| == numRows && Some(ds) == DecodeColumn(c)
  {
    hide DecodeInt, DecodeText;
    if c.dataType == INT32 {
      PaddedExact(DecodeInt(c.pages));
      var r := DecodeIntColumn(c.pages, numRows);
      ds := Mapped(IntData, r.value);
    } else {
      PaddedExact(DecodeText(c.pages).value);
      var r := DecodeTextColumn(c.pages, numRows);
      ds := Mapped(TextData, r.value);
    }
  }

  /** `Table::copy_scan`: every column is written into its place in every row. */
  method CopyScan(t: Table, attrs: seq<nat>) returns (rows: seq<Row>)
    requires forall k | 0 <= k < |attrs| :: attrs[k] < |t.columns| && Readable(t.columns[attrs[k]], t.numRows)
    ensures rows == StoredRows(t, attrs)
  {
    hide DecodeColumn, Readable;
    var nulls: Row := seq(|attrs|, _ => Null);
    rows := seq(t.numRows, _ => nulls);
    for k := 0 to |attrs|
      invariant |rows| == t.numRows
      invariant forall i | 0 <= i < t.numRows :: |rows[i]| == |attrs| && rows[i][..k] == StoredRow(t, attrs, i)[..k]
    {
      var ds := DecodeStored(t.columns[attrs[k]], t.numRows);
      rows := WriteColumn(rows, k, ds);
      forall i | 0 <= i < t.numRows ensures rows[i][..k + 1] == StoredRow(t, attrs, i)[..k + 1] {
        assert rows[i][..k + 1] == rows[i][..k] + [rows[i][k]];
        assert StoredRow(t, attrs, i)[k] == At(ds, i);
      }
    }
    forall i | 0 <= i < t.numRows ensures rows[i] == StoredRow(t, attrs, i) {
      assert rows[i] == rows[i][..|attrs|];
    }
  }

  method WriteColumn(rows0: seq<Row>, k: nat, ds: seq<Data>) returns (rows: seq<Row>)
    requires |ds| == |rows0| && forall i | 0 <= i < |rows0| :: k < |rows0[i]|
    ensures |rows| == |rows0|
    ensures forall i | 0 <= i < |rows| :: rows[i] == rows0[i][k := ds[i]]
  {
    rows := rows0;
    for i := 0 to |ds|
      invariant |rows| == |rows0|
      invariant forall j | 0 <= j < i :: rows[j] == rows0[j][k := ds[j]]
      invariant forall j | i <= j < |rows| :: rows[j] == rows0[j]
    {
      rows := rows[i := rows[i][k := ds[i]]];
    }
  }

  /** The reference's `execute_impl`. */
  method ReferenceNode(plan: Plan, idx: nat, ghost rank: seq<nat>) returns (rows: seq<Row>)
    requires PlanOk(plan, rank) && idx < |plan.nodes|
    ensures rows == RefRows(plan, idx, rank) && Means(plan, idx, rank, rows)
    decreases rank[idx]
  {
    RefRowsMean(plan, idx, rank);
    assert NodeOk(plan, idx, rank);
    hide Means, DecodeColumn, Representable, JoinRows, StoredRows;
    match plan.nodes[idx].data {
      case ScanNode(t) =>
        forall k | 0 <= k < |Attrs(plan, idx)|
          ensures Attrs(plan, idx)[k] < |plan.inputs[t].columns|
          ensures Readable(plan.inputs[t].columns[Attrs(plan, idx)[k]], plan.inputs[t].numRows)
        {
          assert StoredColumnOk(plan.inputs[t], Attrs(plan, idx)[k], Types(plan, idx)[k]);
        }
        rows := CopyScan(plan.inputs[t], Attrs(plan, idx));
      case JoinNode(buildLeft, leftIdx, rightIdx, _, _) =>
        var left := ReferenceNode(plan, leftIdx, rank);
        var right := ReferenceNode(plan, rightIdx, rank);
        rows := ReferenceJoin(Spec(plan, idx), left, right, buildLeft);
    }
  }

  /** One column of `to_columnar`. */
  method EncodeColumn(ds: seq<Data>, t: DataType) returns (c: Column)
    requires t == INT32 || t == VARCHAR
    requires forall i | 0 <= i < |ds| :: ds[i] == Null || (if t == INT32 then ds[i].Int? else ds[i].Str?)
    ensures c.dataType == t && DecodeColumn(c) == Some(ds)
    ensures Representable(c) <==> Carried(t, ds)
    ensures |c.pages| <= 0x1_0000_0000 ==> WellFormedColumn(c)
  {
    hide DecodeText, DecodeInt, WellFormedText, NoAdjacentLong, NoLongPairs, Carried;
    if t == INT32 {
      var ints: seq<IntRow> := Mapped((d: Data) => if d.Int? then Some(d.i) else None, ds);
      var pages := EncodeIntColumn(ints);
      c := Column(t, pages);
      assert Mapped(IntData, ints) == ds;
      IntsCarried(ints);
    } else {
      var texts: seq<TextRow> := Mapped((d: Data) => if d.Str? then Some(d.s) else None, ds);
      var pages := EncodeTextColumn(texts);
      c := Column(t, pages);
      assert Mapped(TextData, texts) == ds;
      TextsCarried(texts);
    }
  }

  /** Data stored, scanned as payloads and written back come out the same exactly when they are carried. */
  method StoreAndScan(ds: seq<Data>, t: DataType) returns (c: Column, out: Column)
    requires t == INT32 || t == VARCHAR
    requires forall i | 0 <= i < |ds| :: ds[i] == Null || (if t == INT32 then ds[i].Int? else ds[i].Str?)
    ensures DecodeColumn(c) == Some(ds)
    ensures |c.pages| <= 0x1_0000_0000 ==> (DecodeColumn(out) == Some(ds) <==> Carried(t, ds))
  {
    c := EncodeColumn(ds, t);
    var inputs := [Table(|ds|, [c])];
    var scanned := ScanColumn(0, 0, c, |ds|);
    ghost var view := scanned.View();
    ViewLength(scanned);
    out := FinalizeColumn(inputs, t, scanned, scanned.numValues);
    hide *;
    if |c.pages| <= 0x1_0000_0000 {
      ScanExact(inputs, 0, 0);
    }
  }
}
