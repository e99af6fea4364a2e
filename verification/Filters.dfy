/** Vectorised filter evaluation over bitmaps, computed by shards, against row-at-a-time evaluation. */
module Filters {
  import opened Bytes
  import opened Pages
  import opened IntPages
  import opened TextPages
  import opened Scan
  import opened Reference

  // ---------- shards ----------

  /** `FilterThreadPool::begin_idx` */
  function BeginIdx(numThreads: nat, t: nat, tasks: nat): nat
    requires numThreads > 0
  {
    t * (tasks / numThreads) + if t < tasks % numThreads then t else tasks % numThreads
  }

  lemma BeginSteps(numThreads: nat, t: nat, tasks: nat)
    requires numThreads > 0
    ensures BeginIdx(numThreads, 0, tasks) == 0 && BeginIdx(numThreads, numThreads, tasks) == tasks
    ensures BeginIdx(numThreads, t, tasks) <= BeginIdx(numThreads, t + 1, tasks)
  {
    var base, rem := tasks / numThreads, tasks % numThreads;
    assert tasks == numThreads * base + rem;
    assert (t + 1) * base == t * base + base;
  }

  ghost predicate InShard(numThreads: nat, t: nat, tasks: nat, b: nat)
    requires numThreads > 0
  {
    BeginIdx(numThreads, t, tasks) <= b < BeginIdx(numThreads, t + 1, tasks)
  }

  lemma {:induction false} BeginOrder(numThreads: nat, t: nat, u: nat, tasks: nat)
    requires numThreads > 0 && t <= u
    ensures BeginIdx(numThreads, t, tasks) <= BeginIdx(numThreads, u, tasks)
    decreases u - t
  {
    hide BeginIdx;
    if t < u {
      BeginOrder(numThreads, t, u - 1, tasks);
      BeginSteps(numThreads, u - 1, tasks);
    }
  }

  lemma {:induction false} ShardFrom(numThreads: nat, u: nat, tasks: nat, b: nat) returns (t: nat)
    requires numThreads > 0 && b < BeginIdx(numThreads, u, tasks)
    ensures t < u && InShard(numThreads, t, tasks, b)
  {
    hide BeginIdx;
    BeginSteps(numThreads, 0, tasks);
    if u > 0 && BeginIdx(numThreads, u - 1, tasks) <= b {
      t := u - 1;
    } else if u > 0 {
      t := ShardFrom(numThreads, u - 1, tasks, b);
    }
  }

  /** Every byte belongs to exactly one shard. */
  lemma ShardsPartition(numThreads: nat, tasks: nat, b: nat)
    requires numThreads > 0 && b < tasks
    ensures exists t :: 0 <= t < numThreads && InShard(numThreads, t, tasks, b)
    ensures forall t, u | 0 <= t < u :: !(InShard(numThreads, t, tasks, b) && InShard(numThreads, u, tasks, b))
  {
    hide BeginIdx;
    BeginSteps(numThreads, 0, tasks);
    var t := ShardFrom(numThreads, numThreads, tasks, b);
    forall t, u | 0 <= t < u ensures !(InShard(numThreads, t, tasks, b) && InShard(numThreads, u, tasks, b)) {
      BeginOrder(numThreads, t + 1, u, tasks);
    }
  }

  type Shard = (nat, nat)

  /** The bytes of a list of shards. */
  ghost predicate Touched(shards: seq<Shard>, b: nat) {
    exists k :: 0 <= k < |shards| && shards[k].0 <= b < shards[k].1
  }

  /** The shards cover the bytes below `tasks` without overlapping. */
  ghost predicate Partition(shards: seq<Shard>, tasks: nat) {
    && (forall k | 0 <= k < |shards| :: shards[k].0 < shards[k].1 <= tasks)
    && (forall j, k | 0 <= j < k < |shards| :: shards[j].1 <= shards[k].0 || shards[k].1 <= shards[j].0)
    && (forall b | 0 <= b < tasks :: Touched(shards, b))
  }

  /** The shards handed out so far belong to the threads no longer waiting. */
  ghost predicate HandedOut(numThreads: nat, tasks: nat, remaining: set<nat>, shards: seq<Shard>, owners: seq<nat>)
    requires numThreads > 0
  {
    && |owners| == |shards|
    && (forall k | 0 <= k < |owners| ::
          owners[k] < numThreads && owners[k] !in remaining && IsShard(numThreads, tasks, owners[k], shards[k]))
    && (forall j, k | 0 <= j < k < |owners| :: owners[j] != owners[k])
    && (forall t | 0 <= t < numThreads && t !in remaining :: t in owners || Idle(numThreads, tasks, t))
  }

  ghost predicate IsShard(numThreads: nat, tasks: nat, t: nat, s: Shard)
    requires numThreads > 0
  {
    s.0 == BeginIdx(numThreads, t, tasks) < s.1 == BeginIdx(numThreads, t + 1, tasks)
  }

  ghost predicate Idle(numThreads: nat, tasks: nat, t: nat)
    requires numThreads > 0
  {
    BeginIdx(numThreads, t, tasks) == BeginIdx(numThreads, t + 1, tasks)
  }

  lemma AllHandedOut(numThreads: nat, tasks: nat, shards: seq<Shard>, owners: seq<nat>)
    requires numThreads > 0 && HandedOut(numThreads, tasks, {}, shards, owners)
    ensures Partition(shards, tasks)
  {
    hide BeginIdx;
    BeginSteps(numThreads, 0, tasks);
    forall k | 0 <= k < |shards| ensures shards[k].0 < shards[k].1 <= tasks {
      BeginOrder(numThreads, owners[k] + 1, numThreads, tasks);
    }
    forall j, k | 0 <= j < k < |shards| ensures shards[j].1 <= shards[k].0 || shards[k].1 <= shards[j].0 {
      if owners[j] < owners[k] {
        BeginOrder(numThreads, owners[j] + 1, owners[k], tasks);
      } else {
        BeginOrder(numThreads, owners[k] + 1, owners[j], tasks);
      }
    }
    forall b | 0 <= b < tasks ensures Touched(shards, b) {
      var t := ShardFrom(numThreads, numThreads, tasks, b);
      assert !Idle(numThreads, tasks, t);
      assert t in owners;
      var k :| 0 <= k < |owners| && owners[k] == t;
      assert shards[k].0 <= b < shards[k].1;
    }
  }

  function Below(n: nat): (s: set<nat>)
    ensures forall t: nat :: t in s <==> t < n
  {
    if n == 0 then {} else Below(n - 1) + {n - 1}
  }

  /** `FilterThreadPool::run`: the threads get to their shards in any order. */
  method Schedule(numThreads: nat, tasks: nat) returns (shards: seq<Shard>)
    requires numThreads > 0
    ensures Partition(shards, tasks)
  {
    hide BeginIdx, Partition;
    ghost var owners: seq<nat> := [];
    var remaining: set<nat> := Below(numThreads);
    shards := [];
    while remaining != {}
      invariant HandedOut(numThreads, tasks, remaining, shards, owners)
      invariant forall t | t in remaining :: t < numThreads
      decreases |remaining|
    {
      var t :| t in remaining;
      BeginSteps(numThreads, t, tasks);
      var begin, end := BeginIdx(numThreads, t, tasks), BeginIdx(numThreads, t + 1, tasks);
      assert begin < end ==> IsShard(numThreads, tasks, t, (begin, end));
      if begin < end {
        shards, owners := shards + [(begin, end)], owners + [t];
      }
      remaining := remaining - {t};
    }
    AllHandedOut(numThreads, tasks, shards, owners);
  }

  // ---------- columns in memory ----------

  datatype InnerColumn =
    | IntColumn(ints: seq<i32>, bitmap: seq<byte>)
    | TextColumn(chars: str, offsets: seq<nat>, bitmap: seq<byte>)
  {
    function Count(): nat { if IntColumn? then |ints| else |offsets| }

    ghost predicate Valid() {
      && |bitmap| == BitmapSize(Count())
      && (TextColumn? ==> forall i | 0 <= i < |offsets| :: Begin(i) <= offsets[i] <= |chars|)
    }

    function Begin(i: nat): nat
      requires TextColumn? && i < |offsets|
    {
      if i == 0 then 0 else offsets[i - 1]
    }

    /** Row `i` as the row evaluator sees it. */
    function Get(i: nat): Data
      requires Valid() && i < Count()
    {
      if !BitmapBit(bitmap, i) then Null
      else if IntColumn? then Int(ints[i])
      else Str(chars[Begin(i)..offsets[i]])
    }

    ghost function Rows(): (rows: seq<Data>)
      requires Valid()
      ensures |rows| == Count() && forall i | 0 <= i < |rows| :: rows[i] == Get(i)
    {
      seq(Count(), i requires 0 <= i < Count() => Get(i))
    }
  }

  /** `bitmap_push_back` for the row after the first `n`. */
  method BitmapPushBack(bitmap0: seq<byte>, n: nat, notNull: bool) returns (bitmap: seq<byte>)
    requires |bitmap0| == BitmapSize(n)
    ensures |bitmap| == BitmapSize(n + 1) && BitmapBit(bitmap, n) == notNull
    ensures forall i | 0 <= i < n :: BitmapBit(bitmap, i) == BitmapBit(bitmap0, i)
  {
    hide Bit, PutBit;
    if BitmapSize(n + 1) > |bitmap0| {
      OneBit();
      bitmap := bitmap0 + [if notNull then 1 else 0];
    } else {
      var byteIdx, bitIdx := n / 8, n % 8;
      bitmap := bitmap0[byteIdx := PutBit(bitmap0[byteIdx], bitIdx, notNull)];
      forall i | 0 <= i < n ensures BitmapBit(bitmap, i) == BitmapBit(bitmap0, i) {
        assert i / 8 == byteIdx ==> i % 8 != bitIdx;
      }
    }
  }

  lemma OneBit()
    ensures Bit(1, 0) && !Bit(0, 0)
  {
  }

  /** A column being filled row by row. */
  class InnerInts {
    var data: seq<i32>
    var bitmap: seq<byte>

    function Column(): InnerColumn
      reads this
    {
      IntColumn(data, bitmap)
    }

    constructor ()
      ensures Column().Valid() && Column().Rows() == []
    {
      data, bitmap := [], [];
    }

    method PushBack(value: i32)
      requires Column().Valid()
      modifies this
      ensures Column().Valid() && Column().Rows() == old(Column().Rows()) + [Int(value)]
    {
      bitmap := BitmapPushBack(bitmap, |data|, true);
      data := data + [value];
    }

    method PushBackNull()
      requires Column().Valid()
      modifies this
      ensures Column().Valid() && Column().Rows() == old(Column().Rows()) + [Null]
    {
      bitmap := BitmapPushBack(bitmap, |data|, false);
      data := data + [0];
    }
  }

  class InnerTexts {
    var data: str
    var offsets: seq<nat>
    var bitmap: seq<byte>

    function Column(): InnerColumn
      reads this
    {
      TextColumn(data, offsets, bitmap)
    }

    /** The last offset is the end of the characters. */
    ghost predicate Closed()
      reads this
    {
      Column().Valid() && |data| == if offsets == [] then 0 else offsets[|offsets| - 1]
    }

    constructor ()
      ensures Closed() && Column().Rows() == []
    {
      data, offsets, bitmap := [], [], [];
    }

    method PushBack(value: str)
      requires Closed()
      modifies this
      ensures Closed() && Column().Rows() == old(Column().Rows()) + [Str(value)]
    {
      ghost var before := Column();
      bitmap := BitmapPushBack(bitmap, |offsets|, true);
      data := data + value;
      offsets := offsets + [|data|];
      SameTexts(before, Column());
      ghost var n := |before.offsets|;
      assert Column().Begin(n) == |before.chars|;
      assert data[|before.chars|..|data|] == value;
      assert Column().Get(n) == Str(value);
    }

    method PushBackNull()
      requires Closed()
      modifies this
      ensures Closed() && Column().Rows() == old(Column().Rows()) + [Null]
    {
      ghost var before := Column();
      bitmap := BitmapPushBack(bitmap, |offsets|, false);
      offsets := offsets + [|data|];
      SameTexts(before, Column());
    }
  }

  /** Longer columns keep the rows they had. */
  lemma SameTexts(c: InnerColumn, d: InnerColumn)
    requires c.TextColumn? && d.TextColumn? && c.Valid() && |d.bitmap| == BitmapSize(d.Count())
    requires c.chars <= d.chars && c.offsets <= d.offsets
    requires forall i | 0 <= i < |c.offsets| :: BitmapBit(d.bitmap, i) == BitmapBit(c.bitmap, i)
    requires forall i | |c.offsets| <= i < |d.offsets| :: |c.chars| <= d.offsets[i] <= |d.chars|
    requires |d.offsets| <= |c.offsets| + 1 && |c.chars| == if c.offsets == [] then 0 else c.offsets[|c.offsets| - 1]
    ensures d.Valid() && forall i | 0 <= i < |c.offsets| :: d.Get(i) == c.Get(i)
  {
    hide BitmapBit;
    forall i | 0 <= i < |d.offsets| ensures d.Begin(i) <= d.offsets[i] <= |d.chars| {
      if i < |c.offsets| {
        assert c.Begin(i) <= c.offsets[i] <= |c.chars|;
      }
    }
    forall i | 0 <= i < |c.offsets| ensures d.Get(i) == c.Get(i) {
      assert c.Begin(i) <= c.offsets[i] <= |c.chars|;
      assert d.chars[c.Begin(i)..c.offsets[i]] == c.chars[c.Begin(i)..c.offsets[i]];
    }
  }

  // ---------- statements ----------

  datatype Op = EQ | NEQ | LT | GT | LEQ | GEQ | LIKE | NOT_LIKE | IS_NULL | IS_NOT_NULL

  /** A literal of the plan: a 64-bit integer or a string. */
  datatype Literal = IntLit(v: int) | StrLit(s: str)

  datatype Statement =
    | Comparison(column: nat, op: Op, value: Literal)
    | AndOf(left: Statement, right: Statement)
    | OrOf(left: Statement, right: Statement)
    | NotOf(child: Statement)

  predicate IntTest(op: Op, a: int, b: int) {
    match op
    case EQ => a == b
    case NEQ => a != b
    case LT => a < b
    case GT => a > b
    case LEQ => a <= b
    case GEQ => a >= b
    case _ => false
  }

  /** Lexicographic order of byte strings. */
  predicate TextLess(a: str, b: str) {
    b != [] && (a == [] || a[0] < b[0] || (a[0] == b[0] && TextLess(a[1..], b[1..])))
  }

  predicate TextTest(like: (str, str) -> bool, op: Op, a: str, b: str) {
    match op
    case EQ => a == b
    case NEQ => a != b
    case LT => TextLess(a, b)
    case GT => TextLess(b, a)
    case LEQ => !TextLess(b, a)
    case GEQ => !TextLess(a, b)
    case LIKE => like(a, b)
    case NOT_LIKE => !like(a, b)
    case _ => false
  }

  // ---------- row evaluation ----------

  /** `Comparison::eval` and `LogicalOperation::eval` on one record. */
  predicate EvalRow(like: (str, str) -> bool, st: Statement, record: Row) {
    match st
    case Comparison(column, op, value) =>
      var d := At(record, column);
      if op == IS_NULL then d.Null?
      else if op == IS_NOT_NULL then !d.Null?
      else if op == LIKE || op == NOT_LIKE then
        d.Str? && value.StrLit? && (like(d.s, value.s) == (op == LIKE))
      else if d.Int? && value.IntLit? then IntTest(op, d.i, value.v)
      else if d.Str? && value.StrLit? then TextTest(like, op, d.s, value.s)
      else false
    case AndOf(l, r) => EvalRow(like, l, record) && EvalRow(like, r, record)
    case OrOf(l, r) => EvalRow(like, l, record) || EvalRow(like, r, record)
    case NotOf(c) => !EvalRow(like, c, record)
  }

  // ---------- bitmap evaluation ----------

  /** `static_cast<int32_t>` of an integer literal. */
  function Narrow32(v: int): i32 { Signed(v % 0x1_0000_0000) }

  /** Columns exist, operators and literals fit the column types. */
  predicate WellTyped(st: Statement, table: seq<InnerColumn>) {
    match st
    case Comparison(column, op, value) =>
      && column < |table|
      && (op == IS_NULL || op == IS_NOT_NULL ||
          if table[column].IntColumn? then value.IntLit? && op != LIKE && op != NOT_LIKE else value.StrLit?)
    case AndOf(l, r) => WellTyped(l, table) && WellTyped(r, table)
    case OrOf(l, r) => WellTyped(l, table) && WellTyped(r, table)
    case NotOf(c) => WellTyped(c, table)
  }

  /** Bit `i` of the bitmap is answer `i`; the bits after the last row may be anything. */
  ghost predicate BitsOf(bitmap: seq<byte>, want: seq<bool>) {
    |bitmap| == BitmapSize(|want|) && forall i | 0 <= i < |want| :: BitmapBit(bitmap, i) == want[i]
  }

  /** Byte `b` of the output is finished. */
  ghost predicate ByteDone(out: seq<byte>, want: seq<bool>, b: nat)
    requires b < |out|
  {
    forall k: nat | k < 8 && 8 * b + k < |want| :: Bit(out[b], k) == want[8 * b + k]
  }

  /** The bytes of the finished shards are done and the others are as they were. */
  ghost predicate ShardsDone(out: seq<byte>, start: seq<byte>, want: seq<bool>, shards: seq<Shard>) {
    && |out| == |start| == BitmapSize(|want|)
    && forall b | 0 <= b < |out| :: if Touched(shards, b) then ByteDone(out, want, b) else out[b] == start[b]
  }

  lemma DoneBits(out: seq<byte>, start: seq<byte>, want: seq<bool>, shards: seq<Shard>)
    requires Partition(shards, |out|) && ShardsDone(out, start, want, shards)
    ensures BitsOf(out, want)
  {
    forall i | 0 <= i < |want| ensures BitmapBit(out, i) == want[i] {
      assert Touched(shards, i / 8) && ByteDone(out, want, i / 8);
      assert 8 * (i / 8) + i % 8 == i;
    }
  }

  lemma OneMoreShard(out: seq<byte>, out': seq<byte>, start: seq<byte>, want: seq<bool>, shards: seq<Shard>, k: nat)
    requires k < |shards| && shards[k].0 < shards[k].1 <= |out|
    requires ShardsDone(out, start, want, shards[..k]) && |out'| == |out|
    requires forall b | shards[k].0 <= b < shards[k].1 :: ByteDone(out', want, b)
    requires forall b | 0 <= b < |out| && !(shards[k].0 <= b < shards[k].1) :: out'[b] == out[b]
    ensures ShardsDone(out', start, want, shards[..k + 1])
  {
    hide Bit;
    forall b | 0 <= b < |out|
      ensures if Touched(shards[..k + 1], b) then ByteDone(out', want, b) else out'[b] == start[b]
    {
      if shards[k].0 <= b < shards[k].1 {
        assert shards[..k + 1][k] == shards[k];
      } else {
        assert Touched(shards[..k + 1], b) <==> Touched(shards[..k], b) by { TouchedPrefix(shards, k, b); }
      }
    }
  }

  lemma TouchedPrefix(shards: seq<Shard>, k: nat, b: nat)
    requires k < |shards| && !(shards[k].0 <= b < shards[k].1)
    ensures Touched(shards[..k + 1], b) <==> Touched(shards[..k], b)
  {
    assert forall j | 0 <= j < k :: shards[..k + 1][j] == shards[..k][j];
  }

  /** Setting one bit of an output byte that was zero from there on. */
  lemma SetBit(byte0: byte, byte1: byte, want: seq<bool>, b: nat, k: nat, on: bool)
    requires k < 8 && 8 * b + k < |want| && want[8 * b + k] == on && PartDone(byte0, want, b, k)
    requires byte1 == if on then PutBit(byte0, k, true) else byte0
    ensures PartDone(byte1, want, b, k + 1)
  {
    hide Bit, PutBit;
  }

  lemma ZeroBits()
    ensures forall j: nat | j < 8 :: !Bit(0, j)
  {
  }

  /** The bits of byte `b` before bit `k` are done, the others still zero. */
  ghost predicate PartDone(x: byte, want: seq<bool>, b: nat, k: nat) {
    forall j: nat | j < 8 :: Bit(x, j) == (j < k && 8 * b + j < |want| && want[8 * b + j])
  }

  /** How many bits of byte `b` lie before position `i`. */
  function Reached(i: nat, b: nat): nat { if i <= 8 * b then 0 else if i < 8 * b + 8 then i - 8 * b else 8 }

  lemma ReachedNext(i: nat, b: nat)
    ensures Reached(i + 1, b) == if b == i / 8 then i % 8 + 1 else Reached(i, b)
    ensures b == i / 8 ==> Reached(i, b) == i % 8
  {
  }

  lemma NothingReached(lo: nat, b: nat)
    requires lo <= b
    ensures Reached(lo * 8, b) == 0
  {
  }

  lemma ReachedAll(out: seq<byte>, want: seq<bool>, b: nat, i: nat)
    requires b < |out| && PartDone(out[b], want, b, Reached(i, b)) && (i >= |want| || 8 * b + 8 <= i)
    ensures ByteDone(out, want, b)
  {
    hide Bit;
  }

  /** The comparison kernels for INT32, over one shard: `output[i / 8] |= bitmap & (1 << i % 8) & (test << i % 8)`. */
  method IntKernel(c: InnerColumn, op: Op, rhs: i32, output: array<byte>, lo: nat, hi: nat, ghost want: seq<bool>)
    requires c.Valid() && c.IntColumn? && |want| == |c.ints|
    requires output.Length == BitmapSize(|want|) && lo < hi <= output.Length
    requires forall i | 0 <= i < |want| :: want[i] == (BitmapBit(c.bitmap, i) && IntTest(op, c.ints[i], rhs))
    requires forall b | lo <= b < hi :: output[b] == 0
    modifies output
    ensures forall b | lo <= b < hi :: ByteDone(output[..], want, b)
    ensures forall b | 0 <= b < output.Length && !(lo <= b < hi) :: output[b] == old(output[b])
  {
    hide Bit, PutBit, IntTest, Reached;
    ZeroBits();
    forall b | lo <= b < hi ensures PartDone(output[b], want, b, Reached(lo * 8, b)) {
      NothingReached(lo, b);
    }
    hide PartDone;
    var end := if hi * 8 < |c.ints| then hi * 8 else |c.ints|;
    var i := lo * 8;
    while i < end
      invariant lo * 8 <= i <= end
      invariant forall b | lo <= b < hi :: PartDone(output[b], want, b, Reached(i, b))
      invariant forall b | 0 <= b < output.Length && !(lo <= b < hi) :: output[b] == old(output[b])
    {
      var byteIdx, bitIdx := i / 8, i % 8;
      ghost var before := output[byteIdx];
      ReachedNext(i, byteIdx);
      assert PartDone(before, want, byteIdx, bitIdx);
      if BitmapBit(c.bitmap, i) && IntTest(op, c.ints[i], rhs) {
        output[byteIdx] := PutBit(output[byteIdx], bitIdx, true);
      }
      SetBit(before, output[byteIdx], want, byteIdx, bitIdx, want[i]);
      forall b | lo <= b < hi ensures PartDone(output[b], want, b, Reached(i + 1, b)) {
        ReachedNext(i, b);
      }
      i := i + 1;
    }
    forall b | lo <= b < hi ensures ByteDone(output[..], want, b) {
      ReachedAll(output[..], want, b, i);
    }
  }

  /** The comparison kernels for VARCHAR, byte by byte and bit by bit. */
  method TextKernel(like: (str, str) -> bool, c: InnerColumn, op: Op, rhs: str, output: array<byte>, lo: nat, hi: nat,
                    ghost want: seq<bool>)
    requires c.Valid() && c.TextColumn? && |want| == |c.offsets|
    requires output.Length == BitmapSize(|want|) && lo < hi <= output.Length
    requires forall i | 0 <= i < |want| ::
      want[i] == (BitmapBit(c.bitmap, i) && TextTest(like, op, c.chars[c.Begin(i)..c.offsets[i]], rhs))
    requires forall b | lo <= b < hi :: output[b] == 0
    modifies output
    ensures forall b | lo <= b < hi :: ByteDone(output[..], want, b)
    ensures forall b | 0 <= b < output.Length && !(lo <= b < hi) :: output[b] == old(output[b])
  {
    hide Bit, PutBit, TextTest, BitmapBit;
    for byteIdx := lo to hi
      invariant forall b | lo <= b < byteIdx :: ByteDone(output[..], want, b)
      invariant forall b | 0 <= b < output.Length && !(lo <= b < byteIdx) :: output[b] == old(output[b])
    {
      ghost var before := output[..];
      ZeroBits();
      var bitIdx := 0;
      while bitIdx < 8
        invariant bitIdx <= 8 && PartDone(output[byteIdx], want, byteIdx, bitIdx)
        invariant forall b | 0 <= b < output.Length && b != byteIdx :: output[b] == before[b]
      {
        var i := byteIdx * 8 + bitIdx;
        if i >= |c.offsets| { break; }
        ghost var old_ := output[byteIdx];
        var begin := if i == 0 then 0 else c.offsets[i - 1];
        assert begin == c.Begin(i) <= c.offsets[i] <= |c.chars|;
        if BitmapBit(c.bitmap, i) && TextTest(like, op, c.chars[begin..c.offsets[i]], rhs) {
          output[byteIdx] := PutBit(output[byteIdx], bitIdx, true);
        }
        SetBit(old_, output[byteIdx], want, byteIdx, bitIdx, want[i]);
        bitIdx := bitIdx + 1;
      }
      forall b | lo <= b < byteIdx + 1 ensures ByteDone(output[..], want, b) {
        assert b < byteIdx ==> ByteDone(before, want, b);
      }
    }
  }

  /** The answers of one comparison. */
  ghost function Tests(like: (str, str) -> bool, c: InnerColumn, op: Op, value: Literal): (want: seq<bool>)
    requires c.Valid() && if c.IntColumn? then value.IntLit? else value.StrLit?
    ensures |want| == c.Count()
    ensures forall i | 0 <= i < |want| :: want[i] == TestAt(like, c, op, value, i)
  {
    seq(c.Count(), i requires 0 <= i < c.Count() => TestAt(like, c, op, value, i))
  }

  ghost predicate TestAt(like: (str, str) -> bool, c: InnerColumn, op: Op, value: Literal, i: nat)
    requires c.Valid() && i < c.Count() && if c.IntColumn? then value.IntLit? else value.StrLit?
  {
    BitmapBit(c.bitmap, i) &&
    if c.IntColumn? then IntTest(op, c.ints[i], Narrow32(value.v))
    else TextTest(like, op, c.chars[c.Begin(i)..c.offsets[i]], value.s)
  }

  /** A comparison of a whole column, shard by shard. */
  method CompareColumn(like: (str, str) -> bool, c: InnerColumn, op: Op, value: Literal, numThreads: nat)
    returns (ret: seq<byte>)
    requires c.Valid() && (if c.IntColumn? then value.IntLit? else value.StrLit?) && numThreads > 0
    ensures BitsOf(ret, Tests(like, c, op, value))
  {
    ghost var want := Tests(like, c, op, value);
    hide Partition, ByteDone, Touched, Narrow32, IntTest, TextTest, BitmapBit;
    var output := new byte[|c.bitmap|](_ => 0);
    ghost var start := output[..];
    var shards := Schedule(numThreads, BitmapSize(c.Count()));
    NothingDone(start, want, shards);
    for k := 0 to |shards|
      invariant ShardsDone(output[..], start, want, shards[..k])
    {
      ghost var before := output[..];
      ShardFits(shards, k, |c.bitmap|);
      Untouched(before, start, want, shards, k);
      if c.IntColumn? {
        IntKernel(c, op, Narrow32(value.v), output, shards[k].0, shards[k].1, want);
      } else {
        TextKernel(like, c, op, value.s, output, shards[k].0, shards[k].1, want);
      }
      OneMoreShard(before, output[..], start, want, shards, k);
    }
    assert shards[..|shards|] == shards;
    ret := output[..];
    DoneBits(ret, start, want, shards);
  }

  lemma NothingDone(start: seq<byte>, want: seq<bool>, shards: seq<Shard>)
    requires |start| == BitmapSize(|want|)
    ensures ShardsDone(start, start, want, shards[..0])
  {
  }

  lemma ShardFits(shards: seq<Shard>, k: nat, tasks: nat)
    requires Partition(shards, tasks) && k < |shards|
    ensures shards[k].0 < shards[k].1 <= tasks
  {
  }

  /** The next shard's bytes are still as they were. */
  lemma Untouched(out: seq<byte>, start: seq<byte>, want: seq<bool>, shards: seq<Shard>, k: nat)
    requires Partition(shards, |out|) && k < |shards| && ShardsDone(out, start, want, shards[..k])
    ensures forall b | shards[k].0 <= b < shards[k].1 :: b < |out| && out[b] == start[b]
  {
    forall b | shards[k].0 <= b < shards[k].1 ensures b < |out| && out[b] == start[b] {
      forall j | 0 <= j < k ensures !(shards[..k][j].0 <= b < shards[..k][j].1) {
        assert shards[..k][j] == shards[j];
      }
      assert !Touched(shards[..k], b);
    }
  }

  // ---------- whole bitmaps ----------

  datatype Join = Both | Either

  ghost function Joined(how: Join, a: seq<bool>, b: seq<bool>): (want: seq<bool>)
    requires |a| == |b|
    ensures |want| == |a| && forall i | 0 <= i < |a| :: want[i] == if how == Both then a[i] && b[i] else a[i] || b[i]
  {
    seq(|a|, i requires 0 <= i < |a| => if how == Both then a[i] && b[i] else a[i] || b[i])
  }

  /** `bitmap_and` and `bitmap_or` */
  method BitmapJoin(how: Join, lhs: seq<byte>, rhs: seq<byte>, numThreads: nat, ghost a: seq<bool>, ghost b: seq<bool>)
    returns (ret: seq<byte>)
    requires |a| == |b| && BitsOf(lhs, a) && BitsOf(rhs, b) && numThreads > 0
    ensures BitsOf(ret, Joined(how, a, b))
  {
    ghost var want := Joined(how, a, b);
    hide Partition, Touched, And, Or, Bit;
    var output := new byte[|lhs|](_ => 0);
    ghost var start := output[..];
    var shards := Schedule(numThreads, |lhs|);
    NothingDone(start, want, shards);
    for k := 0 to |shards|
      invariant ShardsDone(output[..], start, want, shards[..k])
    {
      ghost var before := output[..];
      ShardFits(shards, k, |lhs|);
      for i := shards[k].0 to shards[k].1
        invariant forall x | shards[k].0 <= x < i :: ByteDone(output[..], want, x)
        invariant forall x | 0 <= x < output.Length && !(shards[k].0 <= x < i) :: output[x] == before[x]
      {
        ghost var mid := output[..];
        output[i] := if how == Both then And(lhs[i], rhs[i]) else Or(lhs[i], rhs[i]);
        JoinByte(how, lhs, rhs, a, b, i, output[i]);
        ByteAlone(mid, output[..], want, i, shards[k].0);
      }
      OneMoreShard(before, output[..], start, want, shards, k);
    }
    assert shards[..|shards|] == shards;
    ret := output[..];
    DoneBits(ret, start, want, shards);
  }

  ghost predicate ByteIs(x: byte, want: seq<bool>, b: nat) {
    forall k: nat | k < 8 && 8 * b + k < |want| :: Bit(x, k) == want[8 * b + k]
  }

  lemma JoinByte(how: Join, lhs: seq<byte>, rhs: seq<byte>, a: seq<bool>, b: seq<bool>, i: nat, x: byte)
    requires |a| == |b| && BitsOf(lhs, a) && BitsOf(rhs, b) && i < |lhs| == |rhs|
    requires x == if how == Both then And(lhs[i], rhs[i]) else Or(lhs[i], rhs[i])
    ensures ByteIs(x, Joined(how, a, b), i)
  {
    hide Bit, And, Or, BitsOf, ByteIs;
    assert |rhs| == |lhs| by { SameSizes(lhs, rhs, a, b); }
    BitsByte(lhs, a, i);
    BitsByte(rhs, b, i);
    if how == Both {
      AndByte(lhs[i], rhs[i], a, b, i);
    } else {
      OrByte(lhs[i], rhs[i], a, b, i);
    }
  }

  lemma SameSizes(lhs: seq<byte>, rhs: seq<byte>, a: seq<bool>, b: seq<bool>)
    requires |a| == |b| && BitsOf(lhs, a) && BitsOf(rhs, b)
    ensures |lhs| == |rhs|
  {
  }

  lemma BitsByte(bitmap: seq<byte>, a: seq<bool>, i: nat)
    requires BitsOf(bitmap, a) && i < |bitmap|
    ensures ByteIs(bitmap[i], a, i)
  {
    hide Bit;
    forall k: nat | k < 8 && 8 * i + k < |a| ensures Bit(bitmap[i], k) == a[8 * i + k] {
      assert BitmapBit(bitmap, 8 * i + k) == a[8 * i + k];
    }
  }

  lemma AndByte(x: byte, y: byte, a: seq<bool>, b: seq<bool>, i: nat)
    requires |a| == |b| && ByteIs(x, a, i) && ByteIs(y, b, i)
    ensures ByteIs(And(x, y), Joined(Both, a, b), i)
  {
    hide Bit, And;
  }

  lemma OrByte(x: byte, y: byte, a: seq<bool>, b: seq<bool>, i: nat)
    requires |a| == |b| && ByteIs(x, a, i) && ByteIs(y, b, i)
    ensures ByteIs(Or(x, y), Joined(Either, a, b), i)
  {
    hide Bit, Or;
  }

  /** Writing one finished byte keeps the finished ones before it. */
  lemma ByteAlone(mid: seq<byte>, out: seq<byte>, want: seq<bool>, i: nat, lo: nat)
    requires lo <= i < |mid| == |out| && (forall x | 0 <= x < |mid| && x != i :: out[x] == mid[x])
    requires ByteIs(out[i], want, i)
    requires forall x | lo <= x < i :: ByteDone(mid, want, x)
    ensures forall x | lo <= x < i + 1 :: ByteDone(out, want, x)
  {
    hide Bit;
    forall x | lo <= x < i + 1 ensures ByteDone(out, want, x) {
      assert x < i ==> ByteDone(mid, want, x);
    }
  }

  ghost function Negated(a: seq<bool>): (want: seq<bool>)
    ensures |want| == |a| && forall i | 0 <= i < |a| :: want[i] == !a[i]
  {
    seq(|a|, i requires 0 <= i < |a| => !a[i])
  }

  /** `bitmap_not`: in place on a copy, padding bits included. */
  method BitmapNot(bitmap: seq<byte>, numThreads: nat, ghost a: seq<bool>) returns (ret: seq<byte>)
    requires BitsOf(bitmap, a) && numThreads > 0
    ensures BitsOf(ret, Negated(a))
  {
    ghost var want := Negated(a);
    hide Partition, Touched, Not, Bit;
    var output := new byte[|bitmap|](i requires 0 <= i < |bitmap| => bitmap[i]);
    assert output[..] == bitmap;
    var shards := Schedule(numThreads, |bitmap|);
    NothingDone(bitmap, want, shards);
    for k := 0 to |shards|
      invariant ShardsDone(output[..], bitmap, want, shards[..k])
    {
      ghost var before := output[..];
      ShardFits(shards, k, |bitmap|);
      Untouched(before, bitmap, want, shards, k);
      for i := shards[k].0 to shards[k].1
        invariant forall x | shards[k].0 <= x < i :: ByteDone(output[..], want, x)
        invariant forall x | 0 <= x < output.Length && !(shards[k].0 <= x < i) :: output[x] == before[x]
      {
        ghost var mid := output[..];
        output[i] := Not(output[i]);
        NotByte(bitmap, a, i, output[i]);
        ByteAlone(mid, output[..], want, i, shards[k].0);
      }
      OneMoreShard(before, output[..], bitmap, want, shards, k);
    }
    assert shards[..|shards|] == shards;
    ret := output[..];
    DoneBits(ret, bitmap, want, shards);
  }

  lemma NotByte(bitmap: seq<byte>, a: seq<bool>, i: nat, x: byte)
    requires BitsOf(bitmap, a) && i < |bitmap| && x == Not(bitmap[i])
    ensures ByteIs(x, Negated(a), i)
  {
    hide Bit, Not;
    BitsByte(bitmap, a, i);
  }

  // ---------- statements on tables ----------

  ghost predicate TableOk(table: seq<InnerColumn>, rows: nat) {
    forall k | 0 <= k < |table| :: table[k].Valid() && table[k].Count() == rows
  }

  ghost function Record(table: seq<InnerColumn>, rows: nat, i: nat): (r: Row)
    requires TableOk(table, rows) && i < rows
    ensures |r| == |table| && forall k | 0 <= k < |table| :: r[k] == table[k].Get(i)
  {
    seq(|table|, k requires 0 <= k < |table| => table[k].Get(i))
  }

  /** The statement with its integer literals cast to 32 bits. */
  function Narrowed(st: Statement): Statement {
    match st
    case Comparison(column, op, IntLit(v)) => Comparison(column, op, IntLit(Narrow32(v)))
    case Comparison(_, _, StrLit(_)) => st
    case AndOf(l, r) => AndOf(Narrowed(l), Narrowed(r))
    case OrOf(l, r) => OrOf(Narrowed(l), Narrowed(r))
    case NotOf(c) => NotOf(Narrowed(c))
  }

  ghost function RowAnswers(like: (str, str) -> bool, st: Statement, table: seq<InnerColumn>,
                            rows: nat): (want: seq<bool>)
    requires TableOk(table, rows)
    ensures |want| == rows && forall i | 0 <= i < rows :: want[i] == EvalRow(like, st, Record(table, rows, i))
  {
    seq(rows, i requires 0 <= i < rows => EvalRow(like, st, Record(table, rows, i)))
  }

  /** Bit `i` of the bitmap evaluation is the row evaluation of record `i`, integer literals taken as 32-bit values. */
  method EvalBitmap(like: (str, str) -> bool, st: Statement, table: seq<InnerColumn>, rows: nat, numThreads: nat)
    returns (ret: seq<byte>)
    requires TableOk(table, rows) && WellTyped(st, table) && numThreads > 0
    ensures BitsOf(ret, RowAnswers(like, Narrowed(st), table, rows))
    decreases st
  {
    hide BitsOf, Tests, Joined, Negated, TextTest, IntTest, Narrow32, BitmapBit, InnerColumn.Valid;
    match st {
      case Comparison(column, op, value) =>
        ret := EvalComparison(like, column, op, value, table, rows, numThreads);
      case AndOf(l, r) =>
        var a := EvalBitmap(like, l, table, rows, numThreads);
        var b := EvalBitmap(like, r, table, rows, numThreads);
        ret := BitmapJoin(Both, a, b, numThreads, RowAnswers(like, Narrowed(l), table, rows),
                          RowAnswers(like, Narrowed(r), table, rows));
        JoinAnswers(like, l, r, table, rows);
      case OrOf(l, r) =>
        var a := EvalBitmap(like, l, table, rows, numThreads);
        var b := EvalBitmap(like, r, table, rows, numThreads);
        ret := BitmapJoin(Either, a, b, numThreads, RowAnswers(like, Narrowed(l), table, rows),
                          RowAnswers(like, Narrowed(r), table, rows));
        JoinAnswers(like, l, r, table, rows);
      case NotOf(c) =>
        var a := EvalBitmap(like, c, table, rows, numThreads);
        ret := BitmapNot(a, numThreads, RowAnswers(like, Narrowed(c), table, rows));
        NotAnswers(like, c, table, rows);
    }
  }

  lemma {:induction false} JoinAnswers(like: (str, str) -> bool, l: Statement, r: Statement, table: seq<InnerColumn>,
                                       rows: nat)
    requires TableOk(table, rows)
    ensures RowAnswers(like, Narrowed(AndOf(l, r)), table, rows) ==
      Joined(Both, RowAnswers(like, Narrowed(l), table, rows), RowAnswers(like, Narrowed(r), table, rows))
    ensures RowAnswers(like, Narrowed(OrOf(l, r)), table, rows) ==
      Joined(Either, RowAnswers(like, Narrowed(l), table, rows), RowAnswers(like, Narrowed(r), table, rows))
  {
  }

  lemma {:induction false} NotAnswers(like: (str, str) -> bool, c: Statement, table: seq<InnerColumn>, rows: nat)
    requires TableOk(table, rows)
    ensures RowAnswers(like, Narrowed(NotOf(c)), table, rows) == Negated(RowAnswers(like, Narrowed(c), table, rows))
  {
  }

  ghost function Present(c: InnerColumn): (want: seq<bool>)
    requires c.Valid()
    ensures |want| == c.Count() && forall i | 0 <= i < |want| :: want[i] == BitmapBit(c.bitmap, i)
  {
    seq(c.Count(), i requires 0 <= i < c.Count() => BitmapBit(c.bitmap, i))
  }

  /** `Comparison::eval` on a table */
  method EvalComparison(like: (str, str) -> bool, column: nat, op: Op, value: Literal, table: seq<InnerColumn>,
                        rows: nat, numThreads: nat)
    returns (ret: seq<byte>)
    requires TableOk(table, rows) && WellTyped(Comparison(column, op, value), table) && numThreads > 0
    ensures BitsOf(ret, RowAnswers(like, Narrowed(Comparison(column, op, value)), table, rows))
  {
    var c := table[column];
    assert c.Valid() && c.Count() == rows;
    ComparisonAnswers(like, column, op, value, table, rows);
    hide *;
    if op == IS_NULL {
      PresentBits(c);
      ret := BitmapNot(c.bitmap, numThreads, Present(c));
    } else if op == IS_NOT_NULL {
      PresentBits(c);
      ret := c.bitmap;
    } else {
      ret := CompareColumn(like, c, op, value, numThreads);
    }
  }

  lemma PresentBits(c: InnerColumn)
    requires c.Valid()
    ensures BitsOf(c.bitmap, Present(c))
  {
  }

  lemma {:induction false} ComparisonAnswers(like: (str, str) -> bool, column: nat, op: Op, value: Literal,
                                             table: seq<InnerColumn>, rows: nat)
    requires TableOk(table, rows) && WellTyped(Comparison(column, op, value), table)
    ensures var want := RowAnswers(like, Narrowed(Comparison(column, op, value)), table, rows);
      && table[column].Valid()
      && (op == IS_NULL ==> want == Negated(Present(table[column])))
      && (op == IS_NOT_NULL ==> want == Present(table[column]))
      && (op != IS_NULL && op != IS_NOT_NULL ==>
            && (if table[column].IntColumn? then value.IntLit? else value.StrLit?)
            && want == Tests(like, table[column], op, value))
  {
    hide TextLess, BitmapBit, Narrow32;
  }

  // ---------- integer literals ----------

  /** The literal's cast to 32 bits changes no comparison with a 32-bit value. */
  predicate Harmless(op: Op, v: int) {
    || (-0x8000_0000 <= v < 0x8000_0000)
    || op == LIKE || op == NOT_LIKE || op == IS_NULL || op == IS_NOT_NULL
    || ((op == GT || op == LEQ) && v > 0 && Narrow32(v) == 0x7fff_ffff)
    || ((op == LT || op == GEQ) && v < 0 && Narrow32(v) == -0x8000_0000)
  }

  /** Both evaluators agree on every 32-bit value exactly when the literal is in range, or wraps to the matching
      extreme. */
  lemma LiteralExact(op: Op, v: int)
    ensures (forall a: i32 :: IntTest(op, a, Narrow32(v)) == IntTest(op, a, v)) <==> Harmless(op, v)
  {
    var w := Narrow32(v);
    if -0x8000_0000 <= v < 0x8000_0000 {
      InRange(v);
    } else if !Harmless(op, v) {
      var a: i32 := if op == EQ || op == NEQ then w else if v > 0 then 0x7fff_ffff else -0x8000_0000;
      assert IntTest(op, a, w) != IntTest(op, a, v);
    }
  }

  /** Cast to 32 bits, 2^32 equals 0. */
  lemma LiteralWraps()
    ensures IntTest(EQ, 0, Narrow32(0x1_0000_0000)) && !IntTest(EQ, 0, 0x1_0000_0000)
  {
    assert Narrow32(0x1_0000_0000) == 0;
  }

  lemma InRange(v: int)
    requires -0x8000_0000 <= v < 0x8000_0000
    ensures Narrow32(v) == v
  {
    if v < 0 {
      assert v % 0x1_0000_0000 == v + 0x1_0000_0000;
    }
  }

  /** Every integer literal of the statement is harmless. */
  predicate HarmlessLiterals(st: Statement) {
    match st
    case Comparison(_, op, IntLit(v)) => Harmless(op, v)
    case Comparison(_, _, StrLit(_)) => true
    case AndOf(l, r) => HarmlessLiterals(l) && HarmlessLiterals(r)
    case OrOf(l, r) => HarmlessLiterals(l) && HarmlessLiterals(r)
    case NotOf(c) => HarmlessLiterals(c)
  }

  /** With harmless literals the bitmap evaluation is the row evaluation of the statement as written. */
  lemma {:induction false} NarrowedAgrees(like: (str, str) -> bool, st: Statement, record: Row)
    requires HarmlessLiterals(st)
    ensures EvalRow(like, Narrowed(st), record) == EvalRow(like, st, record)
  {
    match st
    case Comparison(column, op, value) =>
      if value.IntLit? { LiteralExact(op, value.v); }
    case AndOf(l, r) => NarrowedAgrees(like, l, record); NarrowedAgrees(like, r, record);
    case OrOf(l, r) => NarrowedAgrees(like, l, record); NarrowedAgrees(like, r, record);
    case NotOf(c) => NarrowedAgrees(like, c, record);
  }

  // ---------- filtered columns ----------

  /** The rows a filter keeps, in order. */
  ghost function Kept(rows: seq<Data>, want: seq<bool>): seq<Data>
    requires |rows| == |want|
  {
    if rows == [] then [] else
      var n := |rows| - 1;
      Kept(rows[..n], want[..n]) + if want[n] then [rows[n]] else []
  }

  lemma KeptNext(rows: seq<Data>, want: seq<bool>, i: nat)
    requires i < |rows| == |want|
    ensures Kept(rows[..i + 1], want[..i + 1]) == Kept(rows[..i], want[..i]) + if want[i] then [rows[i]] else []
  {
    assert rows[..i + 1][..i] == rows[..i] && want[..i + 1][..i] == want[..i];
  }

  /** `from_inner_to_column` for INT32: the pages hold exactly the kept rows. */
  method KeepInts(c: InnerColumn, results: seq<byte>, rows: nat, ghost want: seq<bool>)
    returns (pages: seq<Page>, count: nat)
    requires c.Valid() && c.IntColumn? && rows == c.Count() == |want| && BitsOf(results, want)
    ensures Mapped(IntData, DecodeInt(pages)) == Kept(c.Rows(), want) && count == |Kept(c.Rows(), want)|
  {
    hide IntInserter.Valid, IntInserter.Contents, DecodeInt, BitmapBit;
    var inserter := new IntInserter();
    count := 0;
    for i := 0 to rows
      invariant inserter.Valid() && fresh(inserter) && fresh(inserter.page) && fresh(inserter.bitmap)
      invariant Mapped(IntData, inserter.Contents()) == Kept(c.Rows()[..i], want[..i])
      invariant count == |Kept(c.Rows()[..i], want[..i])|
    {
      KeptNext(c.Rows(), want, i);
      ghost var before := inserter.Contents();
      if BitmapBit(results, i) {
        if BitmapBit(c.bitmap, i) {
          MappedSnoc(IntData, before, Some(c.ints[i]));
          inserter.Insert(c.ints[i]);
        } else {
          MappedSnoc(IntData, before, None);
          inserter.InsertNull();
        }
        count := count + 1;
      }
    }
    assert c.Rows()[..rows] == c.Rows() && want[..rows] == want;
    inserter.Finalize();
    pages := inserter.pages;
  }

  /** `from_inner_to_column` for VARCHAR. */
  method KeepTexts(c: InnerColumn, results: seq<byte>, rows: nat, ghost want: seq<bool>)
    returns (pages: seq<Page>, count: nat)
    requires c.Valid() && c.TextColumn? && rows == c.Count() == |want| && BitsOf(results, want)
    ensures DecodeText(pages).Some? && Mapped(TextData, DecodeText(pages).value) == Kept(c.Rows(), want)
    ensures count == |Kept(c.Rows(), want)|
  {
    hide TextInserter.Valid, TextInserter.Contents, DecodeText, BitmapBit;
    var inserter := new TextInserter();
    count := 0;
    for i := 0 to rows
      invariant inserter.Valid() && fresh(inserter) && fresh(inserter.page)
      invariant fresh(inserter.data) && fresh(inserter.bitmap)
      invariant Mapped(TextData, inserter.Contents()) == Kept(c.Rows()[..i], want[..i])
      invariant count == |Kept(c.Rows()[..i], want[..i])|
    {
      KeptNext(c.Rows(), want, i);
      ghost var before := inserter.Contents();
      if BitmapBit(results, i) {
        if BitmapBit(c.bitmap, i) {
          var begin := if i == 0 then 0 else c.offsets[i - 1];
          assert begin == c.Begin(i) <= c.offsets[i] <= |c.chars|;
          var text := c.chars[begin..c.offsets[i]];
          MappedSnoc(TextData, before, Some(text));
          inserter.Insert(text);
        } else {
          MappedSnoc(TextData, before, None);
          inserter.InsertNull();
        }
        count := count + 1;
      }
    }
    assert c.Rows()[..rows] == c.Rows() && want[..rows] == want;
    inserter.Finalize();
    pages := inserter.pages;
  }
}
