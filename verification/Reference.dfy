/** The row-at-a-time reference executor, and why a join does not care about the order of its inputs. */
module Reference {
  import opened Bags
  import opened LateMaterialization
  import opened Scan

  type Row = seq<Data>

  // ---------- plans ----------

  datatype NodeData =
    | ScanNode(baseTableId: nat)
    | JoinNode(buildLeft: bool, left: nat, right: nat, leftAttr: nat, rightAttr: nat)

  datatype PlanNode = PlanNode(data: NodeData, outputAttrs: seq<(nat, DataType)>)

  datatype Plan = Plan(nodes: seq<PlanNode>, inputs: seq<Table>, root: nat)

  // ---------- one join on rows ----------

  datatype JoinSpec = JoinSpec(leftAttr: nat, rightAttr: nat, attrs: seq<nat>)

  function At(row: Row, k: nat): Data { if k < |row| then row[k] else Null }

  /** Equal, non-NULL keys. */
  predicate Matches(s: JoinSpec, l: Row, r: Row) {
    At(l, s.leftAttr) != Null && At(l, s.leftAttr) == At(r, s.rightAttr)
  }

  function OutRow(attrs: seq<nat>, l: Row, r: Row): (o: Row)
    ensures |o| == |attrs|
  {
    seq(|attrs|, k requires 0 <= k < |attrs| => if attrs[k] < |l| then l[attrs[k]] else At(r, attrs[k] - |l|))
  }

  /** The output of one probe row: every matching build row, in build order. */
  function ProbeRows(s: JoinSpec, build: seq<Row>, p: Row, buildLeft: bool): seq<Row> {
    if build == [] then [] else
      var b := build[|build| - 1];
      var (l, r) := if buildLeft then (b, p) else (p, b);
      ProbeRows(s, build[..|build| - 1], p, buildLeft) + if Matches(s, l, r) then [OutRow(s.attrs, l, r)] else []
  }

  function ProbeAll(s: JoinSpec, build: seq<Row>, probe: seq<Row>, buildLeft: bool): seq<Row> {
    if probe == [] then [] else
      ProbeAll(s, build, probe[..|probe| - 1], buildLeft) + ProbeRows(s, build, probe[|probe| - 1], buildLeft)
  }

  function JoinRows(s: JoinSpec, left: seq<Row>, right: seq<Row>, buildLeft: bool): seq<Row> {
    if buildLeft then ProbeAll(s, left, right, true) else ProbeAll(s, right, left, false)
  }

  // ---------- what a join's rows are ----------

  /** The rows exist, and their keys are equal and not NULL. */
  ghost predicate KeysMeet(leftAttr: nat, rightAttr: nat, l: Row, r: Row) {
    leftAttr < |l| && rightAttr < |r| && l[leftAttr] == r[rightAttr] && l[leftAttr] != Null
  }

  /** Every output attribute is read off the left row, or counted on into the right one. */
  ghost predicate IsOutput(outs: seq<(nat, DataType)>, l: Row, r: Row, x: Row) {
    && |x| == |outs|
    && forall k | 0 <= k < |outs| ::
         if outs[k].0 < |l| then x[k] == l[outs[k].0]
         else outs[k].0 - |l| < |r| && x[k] == r[outs[k].0 - |l|]
  }

  /** The pairs that go with the rows: probe rows in order, and for each its build rows in order. */
  ghost predicate InProbeOrder(buildLeft: bool, pairs: seq<(nat, nat)>) {
    forall m, n | 0 <= m < n < |pairs| ::
      if buildLeft then pairs[m].1 < pairs[n].1 || (pairs[m].1 == pairs[n].1 && pairs[m].0 < pairs[n].0)
      else pairs[m].0 < pairs[n].0 || (pairs[m].0 == pairs[n].0 && pairs[m].1 < pairs[n].1)
  }

  /** `rows` has one row for each pair of a left and a right row with equal keys, in the order of `pairs`. */
  ghost predicate JoinedAs(buildLeft: bool, leftAttr: nat, rightAttr: nat, outs: seq<(nat, DataType)>,
                           left: seq<Row>, right: seq<Row>, rows: seq<Row>, pairs: seq<(nat, nat)>) {
    && |rows| == |pairs| && InProbeOrder(buildLeft, pairs)
    && (forall n | 0 <= n < |pairs| :: pairs[n].0 < |left| && pairs[n].1 < |right|)
    && (forall n | 0 <= n < |pairs| :: KeysMeet(leftAttr, rightAttr, left[pairs[n].0], right[pairs[n].1]))
    && (forall n | 0 <= n < |pairs| :: IsOutput(outs, left[pairs[n].0], right[pairs[n].1], rows[n]))
    && (forall i, j | 0 <= i < |left| && 0 <= j < |right| && KeysMeet(leftAttr, rightAttr, left[i], right[j]) ::
          (i, j) in pairs)
  }

  /** The same with build and probe rows; pairs are (build, probe). */
  ghost predicate Lists(s: JoinSpec, build: seq<Row>, probe: seq<Row>, buildLeft: bool, rows: seq<Row>,
                        pairs: seq<(nat, nat)>) {
    && |rows| == |pairs| && InProbeOrder(true, pairs)
    && (forall n | 0 <= n < |pairs| :: Entry(s, build, probe, buildLeft, rows[n], pairs[n]))
    && Covered(s, build, probe, buildLeft, pairs)
  }

  ghost predicate Entry(s: JoinSpec, build: seq<Row>, probe: seq<Row>, buildLeft: bool, x: Row, q: (nat, nat)) {
    && q.0 < |build| && q.1 < |probe|
    && Pairs(s, build[q.0], probe[q.1], buildLeft) && x == PairOut(s, build[q.0], probe[q.1], buildLeft)
  }

  ghost predicate Covered(s: JoinSpec, build: seq<Row>, probe: seq<Row>, buildLeft: bool, pairs: seq<(nat, nat)>) {
    forall i, j | 0 <= i < |build| && 0 <= j < |probe| && Pairs(s, build[i], probe[j], buildLeft) :: (i, j) in pairs
  }

  predicate Pairs(s: JoinSpec, b: Row, p: Row, buildLeft: bool) {
    if buildLeft then Matches(s, b, p) else Matches(s, p, b)
  }

  function PairOut(s: JoinSpec, b: Row, p: Row, buildLeft: bool): Row {
    if buildLeft then OutRow(s.attrs, b, p) else OutRow(s.attrs, p, b)
  }

  function ProbePairs(s: JoinSpec, build: seq<Row>, p: Row, j: nat, buildLeft: bool): seq<(nat, nat)> {
    if build == [] then [] else
      var n := |build| - 1;
      ProbePairs(s, build[..n], p, j, buildLeft) + if Pairs(s, build[n], p, buildLeft) then [(n, j)] else []
  }

  function AllPairs(s: JoinSpec, build: seq<Row>, probe: seq<Row>, buildLeft: bool): seq<(nat, nat)> {
    if probe == [] then [] else
      var m := |probe| - 1;
      AllPairs(s, build, probe[..m], buildLeft) + ProbePairs(s, build, probe[m], m, buildLeft)
  }

  /** The matches of one probe row. */
  ghost predicate ListsOne(s: JoinSpec, build: seq<Row>, p: Row, j: nat, buildLeft: bool, rows: seq<Row>,
                           pairs: seq<(nat, nat)>) {
    && |rows| == |pairs|
    && (forall n | 0 <= n < |pairs| :: pairs[n].0 < |build| && pairs[n].1 == j)
    && (forall m, n | 0 <= m < n < |pairs| :: pairs[m].0 < pairs[n].0)
    && (forall n | 0 <= n < |pairs| :: Pairs(s, build[pairs[n].0], p, buildLeft))
    && (forall n | 0 <= n < |pairs| :: rows[n] == PairOut(s, build[pairs[n].0], p, buildLeft))
    && (forall i | 0 <= i < |build| && Pairs(s, build[i], p, buildLeft) :: (i, j) in pairs)
  }

  lemma {:induction false} ProbeListed(s: JoinSpec, build: seq<Row>, p: Row, j: nat, buildLeft: bool)
    ensures ListsOne(s, build, p, j, buildLeft,
                     ProbeRows(s, build, p, buildLeft), ProbePairs(s, build, p, j, buildLeft))
  {
    hide Pairs, PairOut, ListsOne;
    if build == [] {
      NothingListed(s, p, j, buildLeft);
    } else {
      var n := |build| - 1;
      ProbeListed(s, build[..n], p, j, buildLeft);
      ListsOneSnoc(s, build, p, j, buildLeft, ProbeRows(s, build[..n], p, buildLeft),
                   ProbePairs(s, build[..n], p, j, buildLeft));
      ProbeRowsStep(s, build, p, buildLeft);
    }
  }

  lemma {:induction false} ProbeRowsStep(s: JoinSpec, build: seq<Row>, p: Row, buildLeft: bool)
    requires build != []
    ensures var n := |build| - 1;
      ProbeRows(s, build, p, buildLeft) == ProbeRows(s, build[..n], p, buildLeft)
        + if Pairs(s, build[n], p, buildLeft) then [PairOut(s, build[n], p, buildLeft)] else []
  {
    hide Matches, OutRow;
  }

  lemma {:induction false} NothingListed(s: JoinSpec, p: Row, j: nat, buildLeft: bool)
    ensures ListsOne(s, [], p, j, buildLeft, ProbeRows(s, [], p, buildLeft), ProbePairs(s, [], p, j, buildLeft))
  {
  }

  lemma ListsOneSnoc(s: JoinSpec, build: seq<Row>, p: Row, j: nat, buildLeft: bool, rows: seq<Row>,
                     pairs: seq<(nat, nat)>)
    requires build != [] && ListsOne(s, build[..|build| - 1], p, j, buildLeft, rows, pairs)
    ensures var n := |build| - 1;
      if Pairs(s, build[n], p, buildLeft)
      then ListsOne(s, build, p, j, buildLeft, rows + [PairOut(s, build[n], p, buildLeft)], pairs + [(n, j)])
      else ListsOne(s, build, p, j, buildLeft, rows + [], pairs + [])
  {
    hide Pairs, PairOut;
    var n := |build| - 1;
    assert forall i | 0 <= i < n :: build[..n][i] == build[i];
    assert rows + [] == rows && pairs + [] == pairs;
    if Pairs(s, build[n], p, buildLeft) {
      var all := pairs + [(n, j)];
      assert forall q | q in pairs :: q in all;
      assert all[|pairs|] == (n, j);
    }
  }

  lemma {:induction false} AllListed(s: JoinSpec, build: seq<Row>, probe: seq<Row>, buildLeft: bool)
    ensures Lists(s, build, probe, buildLeft,
                  ProbeAll(s, build, probe, buildLeft), AllPairs(s, build, probe, buildLeft))
  {
    hide OutRow, Matches, ProbeRows, ProbePairs, Pairs, PairOut, Lists, ListsOne;
    if probe == [] {
      NoneListed(s, build, buildLeft);
    } else {
      var m := |probe| - 1;
      AllListed(s, build, probe[..m], buildLeft);
      ProbeListed(s, build, probe[m], m, buildLeft);
      ListsSnoc(s, build, probe, buildLeft, ProbeAll(s, build, probe[..m], buildLeft),
                AllPairs(s, build, probe[..m], buildLeft), ProbeRows(s, build, probe[m], buildLeft),
                ProbePairs(s, build, probe[m], m, buildLeft));
    }
  }

  lemma {:induction false} NoneListed(s: JoinSpec, build: seq<Row>, buildLeft: bool)
    ensures Lists(s, build, [], buildLeft, ProbeAll(s, build, [], buildLeft), AllPairs(s, build, [], buildLeft))
  {
  }

  lemma ListsSnoc(s: JoinSpec, build: seq<Row>, probe: seq<Row>, buildLeft: bool, rows: seq<Row>,
                  pairs: seq<(nat, nat)>, rows': seq<Row>, pairs': seq<(nat, nat)>)
    requires probe != [] && Lists(s, build, probe[..|probe| - 1], buildLeft, rows, pairs)
    requires ListsOne(s, build, probe[|probe| - 1], |probe| - 1, buildLeft, rows', pairs')
    ensures Lists(s, build, probe, buildLeft, rows + rows', pairs + pairs')
  {
    var m := |probe| - 1;
    BeforeLast(s, build, probe, buildLeft, rows, pairs);
    FromOne(s, build, probe, buildLeft, rows', pairs');
    OrderConcat(pairs, pairs', m);
    CoverConcat(s, build, probe, buildLeft, pairs, pairs');
    hide Entry, InProbeOrder, ListsOne, Covered;
    var all, out := pairs + pairs', rows + rows';
    forall n | 0 <= n < |all| ensures Entry(s, build, probe, buildLeft, out[n], all[n]) {
      if n < |pairs| {
        assert out[n] == rows[n] && all[n] == pairs[n];
      } else {
        assert out[n] == rows'[n - |rows|] && all[n] == pairs'[n - |pairs|];
      }
    }
  }

  lemma BeforeLast(s: JoinSpec, build: seq<Row>, probe: seq<Row>, buildLeft: bool, rows: seq<Row>,
                   pairs: seq<(nat, nat)>)
    requires probe != [] && Lists(s, build, probe[..|probe| - 1], buildLeft, rows, pairs)
    ensures |rows| == |pairs| && forall n | 0 <= n < |pairs| :: pairs[n].1 < |probe| - 1
    ensures forall n | 0 <= n < |pairs| :: Entry(s, build, probe, buildLeft, rows[n], pairs[n])
  {
    hide Pairs, PairOut, InProbeOrder, Covered;
    forall n | 0 <= n < |pairs|
      ensures pairs[n].1 < |probe| - 1 && Entry(s, build, probe, buildLeft, rows[n], pairs[n])
    {
      assert Entry(s, build, probe[..|probe| - 1], buildLeft, rows[n], pairs[n]);
    }
  }

  lemma FromOne(s: JoinSpec, build: seq<Row>, probe: seq<Row>, buildLeft: bool, rows: seq<Row>, pairs: seq<(nat, nat)>)
    requires probe != [] && ListsOne(s, build, probe[|probe| - 1], |probe| - 1, buildLeft, rows, pairs)
    ensures |rows| == |pairs| && forall n | 0 <= n < |pairs| :: pairs[n].1 == |probe| - 1
    ensures forall n | 0 <= n < |pairs| :: Entry(s, build, probe, buildLeft, rows[n], pairs[n])
    ensures forall a, b | 0 <= a < b < |pairs| :: pairs[a].0 < pairs[b].0
    ensures forall i | 0 <= i < |build| && Pairs(s, build[i], probe[|probe| - 1], buildLeft) ::
      (i, |probe| - 1) in pairs
  {
    hide Pairs, PairOut;
  }

  lemma OrderConcat(pairs: seq<(nat, nat)>, pairs': seq<(nat, nat)>, m: nat)
    requires InProbeOrder(true, pairs) && forall n | 0 <= n < |pairs| :: pairs[n].1 < m
    requires forall n | 0 <= n < |pairs'| :: pairs'[n].1 == m
    requires forall a, b | 0 <= a < b < |pairs'| :: pairs'[a].0 < pairs'[b].0
    ensures InProbeOrder(true, pairs + pairs')
  {
  }

  lemma CoverConcat(s: JoinSpec, build: seq<Row>, probe: seq<Row>, buildLeft: bool, pairs: seq<(nat, nat)>,
                    pairs': seq<(nat, nat)>)
    requires probe != [] && Covered(s, build, probe[..|probe| - 1], buildLeft, pairs)
    requires forall i | 0 <= i < |build| && Pairs(s, build[i], probe[|probe| - 1], buildLeft) ::
      (i, |probe| - 1) in pairs'
    ensures Covered(s, build, probe, buildLeft, pairs + pairs')
  {
    hide Pairs;
    var m := |probe| - 1;
    forall i, j | 0 <= i < |build| && 0 <= j < |probe| && Pairs(s, build[i], probe[j], buildLeft)
      ensures (i, j) in pairs + pairs'
    {
      if j < m { assert probe[..m][j] == probe[j] && (i, j) in pairs; } else { assert (i, m) in pairs'; }
    }
  }

  function Swapped(pairs: seq<(nat, nat)>): (q: seq<(nat, nat)>)
    ensures |q| == |pairs| && forall n | 0 <= n < |q| :: q[n] == (pairs[n].1, pairs[n].0)
  {
    seq(|pairs|, n requires 0 <= n < |pairs| => (pairs[n].1, pairs[n].0))
  }

  ghost predicate Wide(rows: seq<Row>, width: nat) { forall i | 0 <= i < |rows| :: |rows[i]| == width }

  lemma MatchMeans(s: JoinSpec, outs: seq<(nat, DataType)>, l: Row, r: Row)
    requires s.leftAttr < |l| && s.rightAttr < |r| && |outs| == |s.attrs|
    requires forall k | 0 <= k < |outs| :: s.attrs[k] == outs[k].0 < |l| + |r|
    ensures Matches(s, l, r) <==> KeysMeet(s.leftAttr, s.rightAttr, l, r)
    ensures IsOutput(outs, l, r, OutRow(s.attrs, l, r))
  {
  }

  /** The rows of a join: one for each pair of a left and a right row with equal keys. */
  lemma JoinRowsMean(s: JoinSpec, outs: seq<(nat, DataType)>, left: seq<Row>, right: seq<Row>, buildLeft: bool,
                     lw: nat, rw: nat)
    requires Wide(left, lw) && Wide(right, rw) && s.leftAttr < lw && s.rightAttr < rw && |outs| == |s.attrs|
    requires forall k | 0 <= k < |outs| :: s.attrs[k] == outs[k].0 < lw + rw
    ensures exists pairs ::
      JoinedAs(buildLeft, s.leftAttr, s.rightAttr, outs, left, right, JoinRows(s, left, right, buildLeft), pairs)
  {
    hide Matches, OutRow, KeysMeet, IsOutput, ProbeAll, AllPairs;
    forall i, j | 0 <= i < |left| && 0 <= j < |right|
      ensures Matches(s, left[i], right[j]) <==> KeysMeet(s.leftAttr, s.rightAttr, left[i], right[j])
      ensures IsOutput(outs, left[i], right[j], OutRow(s.attrs, left[i], right[j]))
    {
      MatchMeans(s, outs, left[i], right[j]);
    }
    var rows := JoinRows(s, left, right, buildLeft);
    if buildLeft {
      AllListed(s, left, right, true);
      ListedAsIs(s, outs, left, right, rows, AllPairs(s, left, right, true));
    } else {
      AllListed(s, right, left, false);
      SwappedLists(s, outs, left, right, rows, AllPairs(s, right, left, false));
    }
  }

  lemma ListedAsIs(s: JoinSpec, outs: seq<(nat, DataType)>, left: seq<Row>, right: seq<Row>, rows: seq<Row>,
                   pairs: seq<(nat, nat)>)
    requires Lists(s, left, right, true, rows, pairs)
    requires forall i, j | 0 <= i < |left| && 0 <= j < |right| ::
      (Matches(s, left[i], right[j]) <==> KeysMeet(s.leftAttr, s.rightAttr, left[i], right[j]))
      && IsOutput(outs, left[i], right[j], OutRow(s.attrs, left[i], right[j]))
    ensures JoinedAs(true, s.leftAttr, s.rightAttr, outs, left, right, rows, pairs)
  {
    hide Matches, OutRow, KeysMeet, IsOutput;
    forall n | 0 <= n < |pairs|
      ensures pairs[n].0 < |left| && pairs[n].1 < |right|
      ensures KeysMeet(s.leftAttr, s.rightAttr, left[pairs[n].0], right[pairs[n].1])
      ensures IsOutput(outs, left[pairs[n].0], right[pairs[n].1], rows[n])
    {
      assert Entry(s, left, right, true, rows[n], pairs[n]);
    }
    forall i, j | 0 <= i < |left| && 0 <= j < |right| && KeysMeet(s.leftAttr, s.rightAttr, left[i], right[j])
      ensures (i, j) in pairs
    {
      assert Pairs(s, left[i], right[j], true);
    }
  }

  lemma SwappedLists(s: JoinSpec, outs: seq<(nat, DataType)>, left: seq<Row>, right: seq<Row>, rows: seq<Row>,
                     pairs: seq<(nat, nat)>)
    requires Lists(s, right, left, false, rows, pairs)
    requires forall i, j | 0 <= i < |left| && 0 <= j < |right| ::
      (Matches(s, left[i], right[j]) <==> KeysMeet(s.leftAttr, s.rightAttr, left[i], right[j]))
      && IsOutput(outs, left[i], right[j], OutRow(s.attrs, left[i], right[j]))
    ensures JoinedAs(false, s.leftAttr, s.rightAttr, outs, left, right, rows, Swapped(pairs))
  {
    hide Matches, OutRow, KeysMeet, IsOutput;
    var swapped := Swapped(pairs);
    forall n | 0 <= n < |pairs|
      ensures swapped[n].0 < |left| && swapped[n].1 < |right|
      ensures KeysMeet(s.leftAttr, s.rightAttr, left[swapped[n].0], right[swapped[n].1])
      ensures IsOutput(outs, left[swapped[n].0], right[swapped[n].1], rows[n])
    {
      assert Entry(s, right, left, false, rows[n], pairs[n]);
    }
    forall i, j | 0 <= i < |left| && 0 <= j < |right| && KeysMeet(s.leftAttr, s.rightAttr, left[i], right[j])
      ensures (i, j) in swapped
    {
      assert Pairs(s, right[j], left[i], false);
      assert (j, i) in pairs;
      var n :| 0 <= n < |pairs| && pairs[n] == (j, i);
      assert swapped[n] == (i, j);
    }
  }

  // ---------- the reference's hash map ----------

  /** Indices of the rows with key `k`. */
  function IndicesOf(rows: seq<Row>, attr: nat, k: Data): (idx: seq<nat>)
    ensures forall i | i in idx :: i < |rows|
  {
    if rows == [] then [] else
      var n := |rows| - 1;
      IndicesOf(rows[..n], attr, k) + if At(rows[n], attr) == k then [n] else []
  }

  /** The reference's build loop: NULL keys are left out. */
  method BuildMap(rows: seq<Row>, attr: nat) returns (table: map<Data, seq<nat>>)
    ensures forall k :: k in table <==> k != Null && IndicesOf(rows, attr, k) != []
    ensures forall k | k in table :: table[k] == IndicesOf(rows, attr, k)
  {
    table := map[];
    for i := 0 to |rows|
      invariant forall k :: k in table <==> k != Null && IndicesOf(rows[..i], attr, k) != []
      invariant forall k | k in table :: table[k] == IndicesOf(rows[..i], attr, k)
    {
      assert rows[..i + 1][..i] == rows[..i];
      var key := At(rows[i], attr);
      if key != Null {
        table := table[key := (if key in table then table[key] else []) + [i]];
      }
    }
    assert rows[..|rows|] == rows;
  }

  function BuildAttr(s: JoinSpec, buildLeft: bool): nat { if buildLeft then s.leftAttr else s.rightAttr }

  function ProbeAttr(s: JoinSpec, buildLeft: bool): nat { if buildLeft then s.rightAttr else s.leftAttr }

  lemma {:induction false} ProbeByIndex(s: JoinSpec, build: seq<Row>, p: Row, buildLeft: bool, n: nat)
    requires n <= |build|
    ensures var k := At(p, ProbeAttr(s, buildLeft));
      var idx := IndicesOf(build[..n], BuildAttr(s, buildLeft), k);
      && (forall i | i in idx :: i < n)
      && ProbeRows(s, build[..n], p, buildLeft) == if k == Null then [] else OutRows(s.attrs, build, p, idx, buildLeft)
  {
    hide OutRow, At;
    if n == 0 {
      NoRows(s.attrs, build, p, buildLeft);
    } else {
      ProbeByIndex(s, build, p, buildLeft, n - 1);
      assert build[..n][..n - 1] == build[..n - 1];
      var k, attr := At(p, ProbeAttr(s, buildLeft)), BuildAttr(s, buildLeft);
      var idx := IndicesOf(build[..n - 1], attr, k);
      assert IndicesOf(build[..n], attr, k) == if At(build[n - 1], attr) == k then idx + [n - 1] else idx;
      OutRowsSnoc(s.attrs, build, p, idx, n - 1, buildLeft);
    }
  }

  lemma OutRowsSnoc(attrs: seq<nat>, build: seq<Row>, p: Row, idx: seq<nat>, i: nat, buildLeft: bool)
    requires i < |build|
    ensures OutRows(attrs, build, p, idx + [i], buildLeft) == OutRows(attrs, build, p, idx, buildLeft)
      + [if buildLeft then OutRow(attrs, build[i], p) else OutRow(attrs, p, build[i])]
  {
    hide OutRow;
  }

  function OutRows(attrs: seq<nat>, build: seq<Row>, p: Row, idx: seq<nat>, buildLeft: bool): seq<Row> {
    seq(|idx|, i requires 0 <= i < |idx| =>
      var b := if idx[i] < |build| then build[idx[i]] else [];
      if buildLeft then OutRow(attrs, b, p) else OutRow(attrs, p, b))
  }

  /** The reference join: hash map over the build rows, then one lookup per probe row. */
  method ReferenceJoin(s: JoinSpec, left: seq<Row>, right: seq<Row>, buildLeft: bool) returns (results: seq<Row>)
    ensures results == JoinRows(s, left, right, buildLeft)
  {
    var build, probe := if buildLeft then left else right, if buildLeft then right else left;
    var buildAttr, probeAttr := BuildAttr(s, buildLeft), ProbeAttr(s, buildLeft);
    var table := BuildMap(build, buildAttr);
    results := [];
    hide OutRow, IndicesOf, ProbeRows, OutRows;
    for j := 0 to |probe|
      invariant results == ProbeAll(s, build, probe[..j], buildLeft)
    {
      assert probe[..j + 1][..j] == probe[..j];
      var p := probe[j];
      var key := At(p, probeAttr);
      ProbeByIndex(s, build, p, buildLeft, |build|);
      assert build[..|build|] == build;
      if key != Null && key in table {
        var more := LookupRows(s, build, p, table[key], buildLeft);
        results := results + more;
      } else {
        NoRows(s.attrs, build, p, buildLeft);
      }
    }
    assert probe[..|probe|] == probe;
  }

  lemma NoRows(attrs: seq<nat>, build: seq<Row>, p: Row, buildLeft: bool)
    ensures OutRows(attrs, build, p, [], buildLeft) == []
  {
  }

  method LookupRows(s: JoinSpec, build: seq<Row>, p: Row, idx: seq<nat>, buildLeft: bool) returns (rows: seq<Row>)
    requires forall i | i in idx :: i < |build|
    ensures rows == OutRows(s.attrs, build, p, idx, buildLeft)
  {
    rows := [];
    for i := 0 to |idx|
      invariant rows == OutRows(s.attrs, build, p, idx[..i], buildLeft)
    {
      assert idx[i] in idx;
      var b := build[idx[i]];
      rows := rows + [if buildLeft then OutRow(s.attrs, b, p) else OutRow(s.attrs, p, b)];
    }
    assert idx[..|idx|] == idx;
  }

  // ---------- joins see their inputs as bags ----------

  ghost function Match(s: JoinSpec, l: Row, r: Row): multiset<Row> {
    if Matches(s, l, r) then multiset{OutRow(s.attrs, l, r)} else multiset{}
  }

  /** All matches of one left row. */
  ghost function RowBag(s: JoinSpec, l: Row, right: seq<Row>): multiset<Row> {
    if right == [] then multiset{} else
      RowBag(s, l, right[..|right| - 1]) + Match(s, l, right[|right| - 1])
  }

  /** All matches of one right row. */
  ghost function ColBag(s: JoinSpec, left: seq<Row>, r: Row): multiset<Row> {
    if left == [] then multiset{} else
      ColBag(s, left[..|left| - 1], r) + Match(s, left[|left| - 1], r)
  }

  ghost function CrossBag(s: JoinSpec, left: seq<Row>, right: seq<Row>): multiset<Row> {
    if left == [] then multiset{} else
      CrossBag(s, left[..|left| - 1], right) + RowBag(s, left[|left| - 1], right)
  }

  lemma {:induction false} CrossBagRight(s: JoinSpec, left: seq<Row>, right: seq<Row>, r: Row)
    ensures CrossBag(s, left, right + [r]) == CrossBag(s, left, right) + ColBag(s, left, r)
  {
    hide Match;
    if left != [] {
      var n := |left| - 1;
      CrossBagRight(s, left[..n], right, r);
      assert (right + [r])[..|right|] == right;
    }
  }

  lemma {:induction false} CrossBagNothing(s: JoinSpec, left: seq<Row>)
    ensures CrossBag(s, left, []) == multiset{}
  {
    if left != [] { CrossBagNothing(s, left[..|left| - 1]); }
  }

  lemma {:induction false} ProbeRowsBag(s: JoinSpec, build: seq<Row>, p: Row, buildLeft: bool)
    ensures multiset(ProbeRows(s, build, p, buildLeft)) ==
      if buildLeft then ColBag(s, build, p) else RowBag(s, p, build)
  {
    hide OutRow, Matches;
    if build != [] {
      ProbeRowsBag(s, build[..|build| - 1], p, buildLeft);
    }
  }

  lemma {:induction false} ProbeAllBag(s: JoinSpec, build: seq<Row>, probe: seq<Row>, buildLeft: bool)
    ensures multiset(ProbeAll(s, build, probe, buildLeft)) ==
      if buildLeft then CrossBag(s, build, probe) else CrossBag(s, probe, build)
  {
    hide ProbeRows, Match, RowBag, ColBag;
    if probe == [] {
      CrossBagNothing(s, build);
    } else {
      var n := |probe| - 1;
      ProbeAllBag(s, build, probe[..n], buildLeft);
      ProbeRowsBag(s, build, probe[n], buildLeft);
      assert probe == probe[..n] + [probe[n]];
      CrossBagRight(s, build, probe[..n], probe[n]);
    }
  }

  /** Either build side yields the same bag: the cross product restricted to matches. */
  lemma {:induction false} JoinRowsBag(s: JoinSpec, left: seq<Row>, right: seq<Row>, buildLeft: bool)
    ensures multiset(JoinRows(s, left, right, buildLeft)) == CrossBag(s, left, right)
  {
    hide ProbeAll, CrossBag;
    ProbeAllBag(s, left, right, true);
    ProbeAllBag(s, right, left, false);
  }

  lemma {:induction false} RowBagWithout(s: JoinSpec, l: Row, right: seq<Row>, i: nat)
    requires i < |right|
    ensures RowBag(s, l, right) == RowBag(s, l, Without(right, i)) + Match(s, l, right[i])
  {
    hide Match;
    var n := |right| - 1;
    if i == n {
      assert Without(right, i) == right[..n];
    } else {
      RowBagWithout(s, l, right[..n], i);
      assert Without(right, i) == Without(right[..n], i) + [right[n]];
      assert Without(right, i)[..n - 1] == Without(right[..n], i);
    }
  }

  lemma {:induction false} CrossBagWithout(s: JoinSpec, left: seq<Row>, right: seq<Row>, i: nat)
    requires i < |left|
    ensures CrossBag(s, left, right) == CrossBag(s, Without(left, i), right) + RowBag(s, left[i], right)
  {
    hide RowBag;
    var n := |left| - 1;
    if i == n {
      assert Without(left, i) == left[..n];
    } else {
      CrossBagWithout(s, left[..n], right, i);
      assert Without(left, i) == Without(left[..n], i) + [left[n]];
      assert Without(left, i)[..n - 1] == Without(left[..n], i);
    }
  }

  lemma {:induction false} RowBagPermuted(s: JoinSpec, l: Row, right: seq<Row>, right': seq<Row>)
    requires multiset(right) == multiset(right')
    ensures RowBag(s, l, right) == RowBag(s, l, right')
    decreases |right|
  {
    hide Match;
    if right == [] {
      SameLength(right, right');
    } else {
      var i := FindLast(right, right');
      RowBagPermuted(s, l, right[..|right| - 1], Without(right', i));
      RowBagWithout(s, l, right', i);
    }
  }

  lemma {:induction false} CrossBagPermutedRight(s: JoinSpec, left: seq<Row>, right: seq<Row>, right': seq<Row>)
    requires multiset(right) == multiset(right')
    ensures CrossBag(s, left, right) == CrossBag(s, left, right')
  {
    hide RowBag;
    if left != [] {
      CrossBagPermutedRight(s, left[..|left| - 1], right, right');
      RowBagPermuted(s, left[|left| - 1], right, right');
    }
  }

  lemma {:induction false} CrossBagPermutedLeft(s: JoinSpec, left: seq<Row>, left': seq<Row>, right: seq<Row>)
    requires multiset(left) == multiset(left')
    ensures CrossBag(s, left, right) == CrossBag(s, left', right)
    decreases |left|
  {
    hide RowBag;
    if left == [] {
      SameLength(left, left');
    } else {
      var i := FindLast(left, left');
      CrossBagPermutedLeft(s, left[..|left| - 1], Without(left', i), right);
      CrossBagWithout(s, left', right, i);
    }
  }

  /** Rearranged inputs, either build side: the same bag of output rows. */
  lemma JoinRowsPermuted(s: JoinSpec, left: seq<Row>, right: seq<Row>, left': seq<Row>, right': seq<Row>, b: bool,
                         b': bool)
    requires multiset(left) == multiset(left') && multiset(right) == multiset(right')
    ensures multiset(JoinRows(s, left, right, b)) == multiset(JoinRows(s, left', right', b'))
  {
    hide JoinRows, CrossBag;
    JoinRowsBag(s, left, right, b);
    JoinRowsBag(s, left', right', b');
    CrossBagPermutedLeft(s, left, left', right);
    CrossBagPermutedRight(s, left', right, right');
  }
}
