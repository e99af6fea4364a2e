/** Tables of optional slots, seen as the bag of what they hold. */
module Slots {
  import opened Bytes
  import opened Bags

  ghost function One<T>(slot: Option<T>): multiset<T> {
    if slot.Some? then multiset{slot.value} else multiset{}
  }

  /** What the occupied slots hold. */
  ghost function Items<T>(t: seq<Option<T>>): multiset<T> {
    if t == [] then multiset{} else Items(t[..|t| - 1]) + One(t[|t| - 1])
  }

  lemma {:induction false} ItemsUpdate<T>(t: seq<Option<T>>, i: nat, slot: Option<T>)
    requires i < |t|
    ensures Items(t[i := slot]) + One(t[i]) == Items(t) + One(slot)
  {
    hide One;
    var n := |t| - 1;
    if i < n {
      ItemsUpdate(t[..n], i, slot);
      assert t[i := slot][..n] == t[..n][i := slot];
      AddBoth(Items(t[..n][i := slot]), One(t[i]), Items(t[..n]), One(slot), One(t[n]));
    } else {
      assert t[i := slot][..n] == t[..n];
    }
  }

  /** An item is held exactly when some slot holds it. */
  lemma {:induction false} ItemsIn<T>(t: seq<Option<T>>, x: T)
    ensures x in Items(t) <==> exists i :: 0 <= i < |t| && t[i] == Some(x)
  {
    if t != [] {
      var n := |t| - 1;
      ItemsIn(t[..n], x);
      assert forall i | 0 <= i < n :: t[..n][i] == t[i];
      if x in Items(t) && x !in Items(t[..n]) {
        assert t[n] == Some(x);
      }
    }
  }

  function Vacant<T>(n: nat): (t: seq<Option<T>>)
    ensures |t| == n && forall i | 0 <= i < n :: t[i] == None
  {
    seq(n, _ => None)
  }

  lemma {:induction false} NoItems<T>(n: nat)
    ensures Items(Vacant<T>(n)) == multiset{}
  {
    if n > 0 {
      NoItems<T>(n - 1);
      assert Vacant<T>(n)[..n - 1] == Vacant<T>(n - 1);
    }
  }

  ghost predicate Full<T>(t: seq<Option<T>>) { forall i | 0 <= i < |t| :: t[i].Some? }

  lemma OneCount<T>(bag: multiset<T>, slot: Option<T>)
    ensures |bag + One(slot)| == |bag| + if slot.Some? then 1 else 0
  {
  }

  /** A table holds fewer items than it has slots exactly when it is not full. */
  lemma {:induction false} ItemsCount<T>(t: seq<Option<T>>)
    ensures |Items(t)| <= |t|
    ensures Full(t) <==> |Items(t)| == |t|
  {
    if t != [] {
      var n := |t| - 1;
      ItemsCount(t[..n]);
      OneCount(Items(t[..n]), t[n]);
      FullPrefix(t);
      hide One, Full;
      assert Items(t) == Items(t[..n]) + One(t[n]);
    }
  }

  lemma FullPrefix<T>(t: seq<Option<T>>)
    requires t != []
    ensures Full(t) <==> Full(t[..|t| - 1]) && t[|t| - 1].Some?
  {
    assert forall i | 0 <= i < |t| - 1 :: t[..|t| - 1][i] == t[i];
  }

  /** Filling an empty slot adds the carried entry; taking an occupied one carries its entry on instead. */
  lemma PutItems<T>(t: seq<Option<T>>, s: nat, x: T, others: multiset<T>, all: multiset<T>)
    requires s < |t| && Items(t) + others + multiset{x} == all
    ensures t[s].None? ==> Items(t[s := Some(x)]) + others == all
    ensures t[s].Some? ==> Items(t[s := Some(x)]) + others + multiset{t[s].value} == all
  {
    hide Items;
    ItemsUpdate(t, s, Some(x));
    var t' := t[s := Some(x)];
    if t[s].Some? {
      var out := t[s].value;
      assert Items(t') + multiset{out} == Items(t) + multiset{x};
      assert Items(t') + others + multiset{out} == (Items(t') + multiset{out}) + others;
      assert Items(t) + others + multiset{x} == (Items(t) + multiset{x}) + others;
    } else {
      assert Items(t') == Items(t) + multiset{x} by { assert Items(t') + multiset{} == Items(t'); }
      assert Items(t') + others == Items(t) + others + multiset{x};
    }
  }
}
