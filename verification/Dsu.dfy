/** Disjoint sets with path compression. */
module Dsu {

  // ---------- forests ----------

  /** Parent pointers that lead to a root: depths fall along them. */
  ghost predicate Forest(pa: seq<nat>, depth: seq<nat>) {
    && |depth| == |pa|
    && forall i | 0 <= i < |pa| :: pa[i] < |pa| && (pa[i] != i ==> depth[pa[i]] < depth[i])
  }

  ghost function RootOf(pa: seq<nat>, depth: seq<nat>, x: nat): (r: nat)
    requires Forest(pa, depth) && x < |pa|
    ensures r < |pa| && pa[r] == r && depth[r] <= depth[x]
    decreases depth[x]
  {
    if pa[x] == x then x else RootOf(pa, depth, pa[x])
  }

  /** Pointing a node at its own root changes no root. */
  lemma {:induction false} Compress(pa: seq<nat>, depth: seq<nat>, x: nat, y: nat)
    requires Forest(pa, depth) && x < |pa| && y < |pa|
    ensures var pa' := pa[x := RootOf(pa, depth, x)];
      Forest(pa', depth) && RootOf(pa', depth, y) == RootOf(pa, depth, y)
    decreases depth[y]
  {
    var r := RootOf(pa, depth, x);
    var pa' := pa[x := r];
    assert pa[x] != x ==> depth[r] <= depth[pa[x]];
    if y == x {
      assert RootOf(pa', depth, r) == r;
    } else if pa[y] != y {
      Compress(pa, depth, x, pa[y]);
    }
  }

  /** Depths once root `rx` hangs below root `ry`. */
  ghost function Deeper(pa: seq<nat>, depth: seq<nat>, rx: nat, ry: nat): (d: seq<nat>)
    requires Forest(pa, depth) && rx < |pa| && ry < |pa|
    ensures |d| == |pa|
  {
    seq(|pa|, i requires 0 <= i < |pa| => if RootOf(pa, depth, i) == rx then depth[i] + depth[ry] + 1 else depth[i])
  }

  lemma LinkForest(pa: seq<nat>, depth: seq<nat>, rx: nat, ry: nat)
    requires Forest(pa, depth) && rx < |pa| && ry < |pa| && pa[rx] == rx && pa[ry] == ry && rx != ry
    ensures Forest(pa[rx := ry], Deeper(pa, depth, rx, ry))
  {
    var pa', d := pa[rx := ry], Deeper(pa, depth, rx, ry);
    assert RootOf(pa, depth, rx) == rx && RootOf(pa, depth, ry) == ry;
    forall i | 0 <= i < |pa| ensures pa'[i] < |pa'| && (pa'[i] != i ==> d[pa'[i]] < d[i]) {
      assert RootOf(pa, depth, i) == RootOf(pa, depth, pa[i]);
    }
  }

  /** Linking two roots moves exactly the first one's nodes under the second. */
  lemma {:induction false} Link(pa: seq<nat>, depth: seq<nat>, rx: nat, ry: nat, y: nat)
    requires Forest(pa, depth) && rx < |pa| && ry < |pa| && pa[rx] == rx && pa[ry] == ry && rx != ry && y < |pa|
    requires Forest(pa[rx := ry], Deeper(pa, depth, rx, ry))
    ensures RootOf(pa[rx := ry], Deeper(pa, depth, rx, ry), y) ==
      if RootOf(pa, depth, y) == rx then ry else RootOf(pa, depth, y)
    decreases depth[y]
  {
    hide Deeper;
    var pa', d := pa[rx := ry], Deeper(pa, depth, rx, ry);
    if y == rx {
      assert RootOf(pa', d, ry) == ry;
    } else if pa[y] != y {
      Link(pa, depth, rx, ry, pa[y]);
    }
  }

  // ---------- what the unions mean ----------

  /** Representatives after a list of unions on `n` elements: the first class takes the second's. */
  function Reps(n: nat, pairs: seq<(nat, nat)>): (reps: seq<nat>)
    ensures |reps| == n
  {
    if pairs == [] then seq(n, i => i) else
      var before := Reps(n, pairs[..|pairs| - 1]);
      var (x, y) := pairs[|pairs| - 1];
      seq(n, i requires 0 <= i < n =>
        if x < n && y < n && before[i] == before[x] then before[y] else before[i])
  }

  ghost predicate Equivalence(r: (nat, nat) -> bool) {
    && (forall a :: r(a, a))
    && (forall a, b :: r(a, b) ==> r(b, a))
    && (forall a, b, c :: r(a, b) && r(b, c) ==> r(a, c))
  }

  ghost predicate Contains(r: (nat, nat) -> bool, n: nat, pairs: seq<(nat, nat)>) {
    forall i | 0 <= i < |pairs| && pairs[i].0 < n && pairs[i].1 < n :: r(pairs[i].0, pairs[i].1)
  }

  lemma {:induction false} Joined(n: nat, pairs: seq<(nat, nat)>, i: nat)
    requires i < |pairs| && pairs[i].0 < n && pairs[i].1 < n
    ensures Reps(n, pairs)[pairs[i].0] == Reps(n, pairs)[pairs[i].1]
  {
    if i < |pairs| - 1 { Joined(n, pairs[..|pairs| - 1], i); }
  }

  lemma {:induction false} NoMore(n: nat, pairs: seq<(nat, nat)>, r: (nat, nat) -> bool, a: nat)
    requires Equivalence(r) && Contains(r, n, pairs) && a < n
    ensures r(a, Reps(n, pairs)[a])
  {
    if pairs != [] {
      var shorter := pairs[..|pairs| - 1];
      var (x, y) := pairs[|pairs| - 1];
      var before := Reps(n, shorter);
      NoMore(n, shorter, r, a);
      if x < n && y < n && before[a] == before[x] {
        NoMore(n, shorter, r, x);
        NoMore(n, shorter, r, y);
        assert r(pairs[|pairs| - 1].0, pairs[|pairs| - 1].1);
        assert r(before[x], x) && r(before[x], y) && r(before[x], before[y]);
      }
    }
  }

  /** Two elements share a representative exactly when every equivalence containing the unions relates them. */
  lemma {:induction false} EquivalenceClosure(n: nat, pairs: seq<(nat, nat)>, a: nat, b: nat)
    requires a < n && b < n
    ensures Reps(n, pairs)[a] == Reps(n, pairs)[b] <==>
      forall r: (nat, nat) -> bool :: Equivalence(r) && Contains(r, n, pairs) ==> r(a, b)
  {
    var reps := Reps(n, pairs);
    if reps[a] == reps[b] {
      forall r: (nat, nat) -> bool | Equivalence(r) && Contains(r, n, pairs) ensures r(a, b) {
        NoMore(n, pairs, r, a);
        NoMore(n, pairs, r, b);
        assert r(reps[b], b);
      }
    } else {
      var same := (x: nat, y: nat) => x == y || (x < n && y < n && reps[x] == reps[y]);
      assert Equivalence(same);
      forall i | 0 <= i < |pairs| && pairs[i].0 < n && pairs[i].1 < n ensures same(pairs[i].0, pairs[i].1) {
        Joined(n, pairs, i);
      }
      assert Contains(same, n, pairs) && !same(a, b);
    }
  }

  /** The forest's roots are the representatives of the unions. */
  ghost predicate Follows(pa: seq<nat>, depth: seq<nat>, pairs: seq<(nat, nat)>) {
    Forest(pa, depth) && forall i | 0 <= i < |pa| :: RootOf(pa, depth, i) == Reps(|pa|, pairs)[i]
  }

  /** Compression follows the same unions. */
  lemma CompressFollows(pa: seq<nat>, depth: seq<nat>, pairs: seq<(nat, nat)>, x: nat, root: nat)
    requires Follows(pa, depth, pairs) && x < |pa| && root == Reps(|pa|, pairs)[x]
    ensures Follows(pa[x := root], depth, pairs)
  {
    hide Reps;
    var pa' := pa[x := root];
    assert RootOf(pa, depth, x) == root;
    forall i | 0 <= i < |pa| ensures Forest(pa', depth) && RootOf(pa', depth, i) == RootOf(pa, depth, i) {
      Compress(pa, depth, x, i);
    }
  }

  ghost function Linked(pa: seq<nat>, depth: seq<nat>, rx: nat, ry: nat): seq<nat>
    requires Forest(pa, depth) && rx < |pa| && ry < |pa|
  {
    if rx == ry then depth else Deeper(pa, depth, rx, ry)
  }

  /** Linking two representatives follows one more union. */
  lemma {:induction false} LinkFollows(pa: seq<nat>, depth: seq<nat>, pairs: seq<(nat, nat)>, x: nat, y: nat, rx: nat,
                                       ry: nat)
    requires Follows(pa, depth, pairs) && x < |pa| && y < |pa|
    requires rx == Reps(|pa|, pairs)[x] && ry == Reps(|pa|, pairs)[y]
    ensures rx < |pa| && ry < |pa| && Follows(pa[rx := ry], Linked(pa, depth, rx, ry), pairs + [(x, y)])
  {
    RepsNext(|pa|, pairs, x, y);
    hide Reps, Deeper;
    assert RootOf(pa, depth, x) == rx && RootOf(pa, depth, y) == ry;
    if rx != ry {
      LinkForest(pa, depth, rx, ry);
      forall i | 0 <= i < |pa|
        ensures RootOf(pa[rx := ry], Deeper(pa, depth, rx, ry), i) == Reps(|pa|, pairs + [(x, y)])[i]
      {
        Link(pa, depth, rx, ry, i);
      }
    } else {
      assert pa[rx := ry] == pa;
    }
  }

  /** A root is its own representative. */
  lemma {:induction false} RootFollows(pa: seq<nat>, depth: seq<nat>, pairs: seq<(nat, nat)>, x: nat)
    requires Follows(pa, depth, pairs) && x < |pa|
    ensures Forest(pa, depth) && pa[x] < |pa| && Reps(|pa|, pairs)[x] < |pa|
    ensures var root := Reps(|pa|, pairs)[x]; pa[root] == root
    ensures if pa[x] == x then Reps(|pa|, pairs)[x] == x
      else depth[pa[x]] < depth[x] && Reps(|pa|, pairs)[pa[x]] == Reps(|pa|, pairs)[x]
  {
    hide Reps;
    assert RootOf(pa, depth, x) == Reps(|pa|, pairs)[x];
  }

  lemma Separate(n: nat)
    ensures Follows(seq(n, i => i), seq(n, _ => 0), [])
  {
  }

  class DSU {
    var pa: array<nat>
    ghost var depth: seq<nat>
    ghost var history: seq<(nat, nat)>  // the unions so far

    ghost predicate Valid()
      reads this, pa
    {
      Follows(pa[..], depth, history)
    }

    constructor (size: nat)
      ensures Valid() && fresh(pa) && pa.Length == size && history == []
    {
      pa := new nat[size](i => i);
      depth := seq(size, _ => 0);
      history := [];
      new;
      assert pa[..] == seq(size, i => i);
      Separate(size);
    }

    /** The representative; compression on the way back changes no representative. */
    method Find(x: nat) returns (root: nat)
      requires Valid() && x < pa.Length
      modifies pa
      ensures Valid() && root == Reps(pa.Length, history)[x] && root < pa.Length && pa[root] == root
      decreases depth[x]
    {
      RootFollows(pa[..], depth, history, x);
      hide Follows, Forest, Reps;
      if pa[x] == x {
        return x;
      }
      root := Find(pa[x]);
      ghost var before := pa[..];
      CompressFollows(before, depth, history, x, root);
      pa[x] := root;
      assert pa[..] == before[x := root];
      RootFollows(pa[..], depth, history, x);
    }

    method Unite(x: nat, y: nat)
      requires Valid() && x < pa.Length && y < pa.Length
      modifies this, pa
      ensures Valid() && pa == old(pa) && history == old(history) + [(x, y)]
      ensures var before, after := Reps(pa.Length, old(history)), Reps(pa.Length, history);
        forall i | 0 <= i < pa.Length :: after[i] == if before[i] == before[x] then before[y] else before[i]
    {
      RepsNext(pa.Length, history, x, y);
      hide Follows, Reps;
      var ry := Find(y);
      var rx := Find(x);
      ghost var before := pa[..];
      LinkFollows(before, depth, history, x, y, rx, ry);
      RootFollows(before, depth, history, x);
      pa[rx] := ry;
      assert pa[..] == before[rx := ry];
      depth, history := Linked(before, depth, rx, ry), history + [(x, y)];
    }
  }

  lemma {:induction false} RepsNext(n: nat, pairs: seq<(nat, nat)>, x: nat, y: nat)
    requires x < n && y < n
    ensures var before, after := Reps(n, pairs), Reps(n, pairs + [(x, y)]);
      forall i | 0 <= i < n :: after[i] == if before[i] == before[x] then before[y] else before[i]
  {
    assert (pairs + [(x, y)])[..|pairs|] == pairs;
  }
}
