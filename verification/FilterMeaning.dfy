/** What the bits of an evaluated filter say about the columns, operator by operator. */
module FilterMeaning {
  import opened Bytes
  import opened Pages
  import opened Scan
  import opened Reference
  import opened Filters

  /** Bit `i` of a bitmap, the lowest bit of each byte first. */
  predicate BitOn(bitmap: seq<byte>, i: nat)
    requires i / 8 < |bitmap|
  {
    bitmap[i / 8] / [1, 2, 4, 8, 16, 32, 64, 128][i % 8] % 2 == 1
  }

  lemma BitIs(bitmap: seq<byte>, i: nat)
    requires i / 8 < |bitmap|
    ensures BitmapBit(bitmap, i) == BitOn(bitmap, i)
  {
  }

  /** The bitmap that the evaluation of a statement returns. */
  ghost predicate Answered(like: (str, str) -> bool, st: Statement, table: seq<InnerColumn>, rows: nat, ret: seq<byte>)
    requires TableOk(table, rows)
  {
    BitsOf(ret, RowAnswers(like, Filters.Narrowed(st), table, rows))
  }

  lemma {:induction false} AnsweredBit(like: (str, str) -> bool, st: Statement, table: seq<InnerColumn>, rows: nat,
                                       ret: seq<byte>, i: nat)
    requires TableOk(table, rows) && Answered(like, st, table, rows, ret) && i < rows
    ensures i / 8 < |ret| && BitOn(ret, i) == EvalRow(like, Filters.Narrowed(st), Record(table, rows, i))
  {
    hide EvalRow, BitmapBit;
    BitIs(ret, i);
  }

  // ---------- integers ----------

  /** Two numbers with the same low 32 bits, the second a 32-bit value. */
  lemma CastIs(v: int, w: i32)
    requires (v - w) % 0x1_0000_0000 == 0
    ensures Narrow32(v) == w
  {
    var q := (v - w) / 0x1_0000_0000;
    assert v == w + 0x1_0000_0000 * q;
    var u := if w < 0 then w + 0x1_0000_0000 else w;
    assert v % 0x1_0000_0000 == u;
  }

  /** Row `i` of an INT32 column compared with a literal whose low 32 bits are `w`: a bit is set exactly if the row has
      a value that compares as the operator says. */
  lemma IntComparison(like: (str, str) -> bool, table: seq<InnerColumn>, rows: nat, column: nat, op: Op, v: int, w: i32,
                      ret: seq<byte>, i: nat)
    requires TableOk(table, rows) && column < |table| && table[column].IntColumn? && op != LIKE && op != NOT_LIKE
    requires (v - w) % 0x1_0000_0000 == 0 && i < rows
    requires Answered(like, Comparison(column, op, IntLit(v)), table, rows, ret)
    ensures i / 8 < |ret| && i / 8 < |table[column].bitmap| && i < |table[column].ints|
    ensures var present, a := BitOn(table[column].bitmap, i), table[column].ints[i];
      && (op == EQ ==> (BitOn(ret, i) <==> present && a == w))
      && (op == NEQ ==> (BitOn(ret, i) <==> present && a != w))
      && (op == LT ==> (BitOn(ret, i) <==> present && a < w))
      && (op == GT ==> (BitOn(ret, i) <==> present && a > w))
      && (op == LEQ ==> (BitOn(ret, i) <==> present && a <= w))
      && (op == GEQ ==> (BitOn(ret, i) <==> present && a >= w))
      && (op == IS_NULL ==> (BitOn(ret, i) <==> !present))
      && (op == IS_NOT_NULL ==> (BitOn(ret, i) <==> present))
  {
    var c := table[column];
    assert c.Valid() && c.Count() == rows;
    CastIs(v, w);
    BitIs(c.bitmap, i);
    AnsweredBit(like, Comparison(column, op, IntLit(v)), table, rows, ret, i);
    hide BitOn, BitmapBit, Narrow32, BitsOf, RowAnswers, Answered;
    assert At(Record(table, rows, i), column) == c.Get(i);
  }

  // ---------- strings ----------

  /** Up to byte `k` the strings agree; there `a` ends, or has the smaller byte. */
  ghost predicate PrecedesAt(a: str, b: str, k: nat) {
    k <= |a| && k < |b| && a[..k] == b[..k] && (k == |a| || a[k] < b[k])
  }

  ghost predicate Precedes(a: str, b: str) { exists k: nat :: PrecedesAt(a, b, k) }

  lemma {:induction false} LessIsPrecedes(a: str, b: str)
    ensures TextLess(a, b) <==> Precedes(a, b)
  {
    if a == [] || b == [] || a[0] < b[0] {
      assert b != [] ==> a[..0] == b[..0] && PrecedesAt(a, b, 0);
    } else if a[0] != b[0] {
      forall k: nat ensures !PrecedesAt(a, b, k) {
        if k > 0 && k <= |a| && k < |b| { FirstByte(a, b, k); }
      }
    } else {
      LessIsPrecedes(a[1..], b[1..]);
      if Precedes(a, b) {
        var k: nat :| PrecedesAt(a, b, k);
        TailPrecedes(a, b, k);
      }
      if Precedes(a[1..], b[1..]) {
        var k: nat :| PrecedesAt(a[1..], b[1..], k);
        TailPrecedes(a, b, k + 1);
      }
    }
  }

  lemma FirstByte(a: str, b: str, k: nat)
    requires 0 < k <= |a| && k <= |b|
    ensures a[..k] == b[..k] ==> a[0] == b[0]
  {
    assert a[..k][0] == a[0] && b[..k][0] == b[0];
  }

  lemma TailPrecedes(a: str, b: str, k: nat)
    requires a != [] && b != [] && a[0] == b[0]
    ensures k == 0 ==> !PrecedesAt(a, b, k)
    ensures k > 0 ==> (PrecedesAt(a, b, k) <==> PrecedesAt(a[1..], b[1..], k - 1))
  {
    if 0 < k <= |a| && k < |b| {
      assert a[..k] == [a[0]] + a[1..][..k - 1] && b[..k] == [b[0]] + b[1..][..k - 1];
      assert a[..k][1..] == a[1..][..k - 1] && b[..k][1..] == b[1..][..k - 1];
    }
  }

  /** Of two strings, either one precedes the other or they are equal. */
  lemma {:induction false} LessIsTotal(a: str, b: str)
    ensures !TextLess(b, a) <==> a == b || TextLess(a, b)
    ensures TextLess(a, b) ==> a != b
  {
    if a != [] && b != [] && a[0] == b[0] {
      LessIsTotal(a[1..], b[1..]);
      assert a == [a[0]] + a[1..] && b == [b[0]] + b[1..];
    }
  }

  /** The same for row `i` of a VARCHAR column and a string literal. */
  lemma TextComparison(like: (str, str) -> bool, table: seq<InnerColumn>, rows: nat, column: nat, op: Op, t: str,
                       ret: seq<byte>, i: nat)
    requires TableOk(table, rows) && column < |table| && table[column].TextColumn? && i < rows
    requires Answered(like, Comparison(column, op, StrLit(t)), table, rows, ret)
    ensures i / 8 < |ret| && i / 8 < |table[column].bitmap| && i < |table[column].offsets|
    ensures (if i == 0 then 0 else table[column].offsets[i - 1]) <= table[column].offsets[i] <= |table[column].chars|
    ensures var c := table[column];
      var present := BitOn(c.bitmap, i);
      var s := c.chars[if i == 0 then 0 else c.offsets[i - 1]..c.offsets[i]];
      && (op == EQ ==> (BitOn(ret, i) <==> present && s == t))
      && (op == NEQ ==> (BitOn(ret, i) <==> present && s != t))
      && (op == LT ==> (BitOn(ret, i) <==> present && Precedes(s, t)))
      && (op == GT ==> (BitOn(ret, i) <==> present && Precedes(t, s)))
      && (op == LEQ ==> (BitOn(ret, i) <==> present && (s == t || Precedes(s, t))))
      && (op == GEQ ==> (BitOn(ret, i) <==> present && (s == t || Precedes(t, s))))
      && (op == LIKE ==> (BitOn(ret, i) <==> present && like(s, t)))
      && (op == NOT_LIKE ==> (BitOn(ret, i) <==> present && !like(s, t)))
      && (op == IS_NULL ==> (BitOn(ret, i) <==> !present))
      && (op == IS_NOT_NULL ==> (BitOn(ret, i) <==> present))
  {
    var c := table[column];
    assert c.Valid() && c.Count() == rows;
    BitIs(c.bitmap, i);
    assert c.Begin(i) <= c.offsets[i] <= |c.chars|;
    var s := c.chars[c.Begin(i)..c.offsets[i]];
    LessIsPrecedes(s, t);
    LessIsPrecedes(t, s);
    LessIsTotal(s, t);
    LessIsTotal(t, s);
    AnsweredBit(like, Comparison(column, op, StrLit(t)), table, rows, ret, i);
    hide BitOn, BitmapBit, Narrow32, BitsOf, RowAnswers, Answered, TextLess, Precedes;
    assert At(Record(table, rows, i), column) == c.Get(i);
  }

  // ---------- connectives ----------

  /** And, or and not act bit by bit. */
  lemma Connectives(like: (str, str) -> bool, l: Statement, r: Statement, table: seq<InnerColumn>, rows: nat,
                    a: seq<byte>, b: seq<byte>, ret: seq<byte>, i: nat)
    requires TableOk(table, rows) && i < rows
    requires Answered(like, l, table, rows, a) && Answered(like, r, table, rows, b)
    ensures i / 8 < |a| && i / 8 < |b|
    ensures Answered(like, AndOf(l, r), table, rows, ret) ==>
      i / 8 < |ret| && (BitOn(ret, i) <==> BitOn(a, i) && BitOn(b, i))
    ensures Answered(like, OrOf(l, r), table, rows, ret) ==>
      i / 8 < |ret| && (BitOn(ret, i) <==> BitOn(a, i) || BitOn(b, i))
    ensures Answered(like, NotOf(l), table, rows, ret) ==> i / 8 < |ret| && (BitOn(ret, i) <==> !BitOn(a, i))
  {
    hide BitOn, Answered;
    AnsweredBit(like, l, table, rows, a, i);
    AnsweredBit(like, r, table, rows, b, i);
    if Answered(like, AndOf(l, r), table, rows, ret) { AnsweredBit(like, AndOf(l, r), table, rows, ret, i); }
    if Answered(like, OrOf(l, r), table, rows, ret) { AnsweredBit(like, OrOf(l, r), table, rows, ret, i); }
    if Answered(like, NotOf(l), table, rows, ret) { AnsweredBit(like, NotOf(l), table, rows, ret, i); }
  }

  // ---------- kept rows ----------

  /** `places` lists the rows whose bit is set, in order. */
  ghost predicate KeptAt(rows: seq<Data>, want: seq<bool>, kept: seq<Data>, places: seq<nat>) {
    && |rows| == |want| && |kept| == |places|
    && (forall n | 0 <= n < |places| :: places[n] < |rows| && want[places[n]] && kept[n] == rows[places[n]])
    && (forall m, n | 0 <= m < n < |places| :: places[m] < places[n])
    && (forall i | 0 <= i < |rows| && want[i] :: i in places)
  }

  lemma {:induction false} KeptRows(rows: seq<Data>, want: seq<bool>)
    requires |rows| == |want|
    ensures exists places :: KeptAt(rows, want, Kept(rows, want), places)
  {
    if rows == [] {
      var places: seq<nat> := [];
      assert KeptAt(rows, want, Kept(rows, want), places);
    } else {
      var n := |rows| - 1;
      KeptRows(rows[..n], want[..n]);
      var places :| KeptAt(rows[..n], want[..n], Kept(rows[..n], want[..n]), places);
      KeptSnoc(rows, want, Kept(rows[..n], want[..n]), places);
      hide KeptAt;
      assert KeptAt(rows, want, Kept(rows, want), if want[n] then places + [n] else places);
    }
  }

  lemma KeptSnoc(rows: seq<Data>, want: seq<bool>, kept: seq<Data>, places: seq<nat>)
    requires |rows| == |want| > 0 && KeptAt(rows[..|rows| - 1], want[..|rows| - 1], kept, places)
    ensures var n := |rows| - 1;
      if want[n] then KeptAt(rows, want, kept + [rows[n]], places + [n]) else KeptAt(rows, want, kept + [], places)
  {
    var n := |rows| - 1;
    assert forall i | 0 <= i < n :: rows[..n][i] == rows[i] && want[..n][i] == want[i];
    assert kept + [] == kept;
    if want[n] {
      var places' := places + [n];
      assert forall i | i in places :: i in places';
      assert n in places';
    }
  }
}
