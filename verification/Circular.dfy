/** Positions of a circular table. */
module Circular {

  /** How far `slot` lies after `home`. */
  function Steps(cap: nat, slot: nat, home: nat): nat
    requires slot < cap && home < cap
  {
    if slot >= home then slot - home else slot + (cap - home)
  }

  function Ahead(cap: nat, slot: nat): nat
    requires slot < cap
  {
    (slot + 1) % cap
  }

  function Behind(cap: nat, slot: nat): nat
    requires slot < cap
  {
    if slot == 0 then cap - 1 else slot - 1
  }

  /** The slot `j` steps after `home`. */
  function Path(cap: nat, home: nat, j: nat): nat
    requires home < cap && j <= cap
  {
    if home + j < cap then home + j else home + j - cap
  }

  /** One turn around the table at most. */
  lemma Wrapped(cap: nat, sum: nat)
    requires 0 < cap && sum < 2 * cap
    ensures sum % cap == if sum < cap then sum else sum - cap
  {
    var q, r := sum / cap, sum % cap;
    assert sum == cap * q + r;
    TurnsLength(cap, q);
  }

  lemma TurnsLength(cap: nat, q: nat)
    ensures if q == 0 then cap * q == 0 else if q == 1 then cap * q == cap else cap * q >= 2 * cap
  {
    assert q >= 2 ==> cap * q == 2 * cap + cap * (q - 2);
  }

  lemma AheadBehind(cap: nat, slot: nat)
    requires slot < cap
    ensures Ahead(cap, slot) == if slot + 1 == cap then 0 else slot + 1
    ensures Ahead(cap, slot) < cap && Behind(cap, Ahead(cap, slot)) == slot
  {
    Wrapped(cap, slot + 1);
  }

  lemma PathAhead(cap: nat, home: nat, j: nat)
    requires home < cap && j < cap
    ensures Path(cap, home, j) < cap && Steps(cap, Path(cap, home, j), home) == j
    ensures Ahead(cap, Path(cap, home, j)) == Path(cap, home, j + 1)
    ensures Behind(cap, Path(cap, home, j + 1)) == Path(cap, home, j)
  {
    AheadBehind(cap, Path(cap, home, j));
  }

  lemma PathBack(cap: nat, slot: nat, home: nat)
    requires slot < cap && home < cap
    ensures Steps(cap, slot, home) < cap && Path(cap, home, Steps(cap, slot, home)) == slot
  {
  }

  lemma PathIs(cap: nat, home: nat, j: nat, slot: nat)
    requires home < cap && slot < cap && j < cap
    ensures Path(cap, home, j) == slot <==> j == Steps(cap, slot, home)
  {
  }
}
