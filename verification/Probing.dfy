/** Linear probing with backward-shift deletion, on a table seen as a sequence of buckets.
    A bucket whose key is 0 is empty; `hash(key, bits)` is the home bucket of a key. */
module Probing {
  import opened Bits

  datatype Entry = Entry(key: nat, val: nat)

  type Hash = (nat, nat) -> nat

  /** A hash is usable when it stays below the table size for every table size. */
  ghost predicate GoodHash(hash: Hash) {
    forall key, bits :: 1 <= bits <= 32 ==> hash(key, bits) < Pow2(bits)
  }

  /** Number of forward steps from bucket `a` to bucket `b` in a ring of `n` buckets. */
  function Dist(n: nat, a: nat, b: nat): nat
    requires a < n && b < n
  {
    if a <= b then b - a else b + n - a
  }

  /** Bucket after `i` in a ring of `n`. */
  function Next(n: nat, i: nat): nat
    requires i < n
  {
    if i + 1 == n then 0 else i + 1
  }

  /** `j` is visited strictly before `t` by a probe that starts at `s`. */
  predicate OnPath(n: nat, s: nat, j: nat, t: nat)
    requires s < n && j < n && t < n
  {
    Dist(n, s, j) < Dist(n, s, t)
  }

  predicate Full(b: seq<Entry>, i: nat)
    requires i < |b|
  {
    b[i].key != 0
  }

  ghost predicate Shape(hash: Hash, bits: nat, b: seq<Entry>) {
    GoodHash(hash) && 1 <= bits <= 32 && |b| == Pow2(bits)
  }

  function Home(hash: Hash, bits: nat, b: seq<Entry>, i: nat): (r: nat)
    requires Shape(hash, bits, b) && i < |b|
    ensures r < |b|
  {
    hash(b[i].key, bits)
  }

  ghost predicate Unique(b: seq<Entry>) {
    forall i, j :: 0 <= i < |b| && 0 <= j < |b| && Full(b, i) && b[i].key == b[j].key ==> i == j
  }

  /** No empty bucket between the home of an entry and the entry, `hole` excepted. */
  ghost predicate ReachedBut(hash: Hash, bits: nat, b: seq<Entry>, hole: int)
    requires Shape(hash, bits, b)
  {
    forall i, j ::
      (0 <= i < |b| && 0 <= j < |b| && j != hole && Full(b, i)
       && OnPath(|b|, Home(hash, bits, b, i), j, i))
      ==> Full(b, j)
  }

  /** The table holds exactly the associations of `m`. */
  ghost predicate Holds(b: seq<Entry>, m: map<nat, nat>) {
    && (forall i :: 0 <= i < |b| && Full(b, i) ==> b[i].key in m && m[b[i].key] == b[i].val)
    && (forall k :: k in m ==> k != 0 && exists i :: 0 <= i < |b| && b[i].key == k)
  }

  /** The table represents `m`: no key twice, every key reachable from its home. */
  ghost predicate Represents(hash: Hash, bits: nat, b: seq<Entry>, m: map<nat, nat>) {
    Shape(hash, bits, b) && Unique(b) && ReachedBut(hash, bits, b, -1) && Holds(b, m)
  }

  function Count(b: seq<Entry>): (r: nat)
    ensures r <= |b|
  {
    if b == [] then 0 else Count(b[..|b| - 1]) + (if Full(b, |b| - 1) then 1 else 0)
  }

  lemma {:induction false} CountUpdate(b: seq<Entry>, i: nat, e: Entry)
    requires i < |b|
    ensures Count(b[i := e]) == Count(b) - (if b[i].key != 0 then 1 else 0) + (if e.key != 0 then 1 else 0)
  {
    var p := b[..|b| - 1];
    if i == |b| - 1 {
      assert b[i := e][..|b| - 1] == p;
    } else {
      assert b[i := e][..|b| - 1] == p[i := e];
      CountUpdate(p, i, e);
    }
  }

  lemma {:induction false} CountEmpty(b: seq<Entry>)
    requires forall i :: 0 <= i < |b| ==> b[i].key == 0
    ensures Count(b) == 0
  {
    if b != [] { CountEmpty(b[..|b| - 1]); }
  }

  /** A table with fewer entries than buckets has an empty bucket: this is what stops a probe. */
  lemma {:induction false} EmptyExists(b: seq<Entry>) returns (i: nat)
    requires Count(b) < |b|
    ensures i < |b| && !Full(b, i)
  {
    if Full(b, |b| - 1) {
      i := EmptyExists(b[..|b| - 1]);
    } else {
      i := |b| - 1;
    }
  }

  /** Every bucket a probe for `key` visits before `idx` holds another key. */
  ghost predicate ProbedPast(hash: Hash, bits: nat, b: seq<Entry>, key: nat, idx: nat)
    requires Shape(hash, bits, b) && idx < |b|
  {
    forall j :: 0 <= j < |b| && OnPath(|b|, hash(key, bits), j, idx) ==> Full(b, j) && b[j].key != key
  }

  /** A probe that ends on the key or on an empty bucket answers for the map: it ends on the key,
      with its value, if and only if the key is there. */
  lemma ProbeFinds(hash: Hash, bits: nat, b: seq<Entry>, m: map<nat, nat>, key: nat, idx: nat)
    requires Represents(hash, bits, b, m) && key != 0 && idx < |b|
    requires ProbedPast(hash, bits, b, key, idx) && b[idx].key in {0, key}
    ensures key in m <==> b[idx].key == key
    ensures key in m ==> b[idx] == Entry(key, m[key])
  {
    if b[idx].key == key {
      assert Full(b, idx);
    } else {
      assert forall i :: 0 <= i < |b| && b[i].key == key ==> Home(hash, bits, b, i) == hash(key, bits);
      assert forall i :: 0 <= i < |b| && b[i].key == key ==> OnPath(|b|, hash(key, bits), i, idx);
    }
  }

  /** Filling the empty bucket where the probe of `key` ended adds exactly that association. */
  lemma InsertAt(hash: Hash, bits: nat, b: seq<Entry>, m: map<nat, nat>, idx: nat, key: nat, val: nat)
    requires Represents(hash, bits, b, m) && key != 0 && key !in m
    requires idx < |b| && !Full(b, idx)
    requires ProbedPast(hash, bits, b, key, idx)
    ensures Represents(hash, bits, b[idx := Entry(key, val)], m[key := val])
    ensures Count(b[idx := Entry(key, val)]) == Count(b) + 1
  {
    var c := b[idx := Entry(key, val)];
    CountUpdate(b, idx, Entry(key, val));
    assert forall i :: 0 <= i < |b| && Full(b, i) ==> b[i].key in m;
    assert Unique(c);
    forall i, j | 0 <= i < |c| && 0 <= j < |c| && Full(c, i) && OnPath(|c|, Home(hash, bits, c, i), j, i)
      ensures Full(c, j)
    {
      if i != idx { assert Home(hash, bits, c, i) == Home(hash, bits, b, i); }
    }
    var m' := m[key := val];
    forall k | k in m'
      ensures k != 0 && exists i :: 0 <= i < |c| && c[i].key == k
    {
      if k == key {
        assert c[idx].key == k;
      } else {
        var i :| 0 <= i < |b| && b[i].key == k;
        assert c[i].key == k;
      }
    }
  }

  /** Rewriting the value of an entry in place. */
  lemma ReplaceAt(hash: Hash, bits: nat, b: seq<Entry>, m: map<nat, nat>, idx: nat, val: nat)
    requires Represents(hash, bits, b, m)
    requires idx < |b| && Full(b, idx)
    ensures Represents(hash, bits, b[idx := Entry(b[idx].key, val)], m[b[idx].key := val])
    ensures Count(b[idx := Entry(b[idx].key, val)]) == Count(b)
  {
    var key := b[idx].key;
    var c := b[idx := Entry(key, val)];
    CountUpdate(b, idx, Entry(key, val));
    assert forall i :: 0 <= i < |b| ==> c[i].key == b[i].key;
    assert forall i :: 0 <= i < |b| ==> Home(hash, bits, c, i) == Home(hash, bits, b, i);
    forall i | 0 <= i < |c| && Full(c, i)
      ensures c[i].key in m[key := val] && m[key := val][c[i].key] == c[i].val
    {
      if i != idx { assert Full(b, i) && b[i].key != key; }
    }
  }

  // ---- backward-shift deletion ----

  /** The branchless test: should the entry at `nidx`, whose home is `kidx`, fill the hole at `idx`? */
  predicate MustBackshift(idx: nat, nidx: nat, kidx: nat) {
    (nidx < idx) != ((kidx <= idx) != (kidx > nidx))
  }

  /** The same test by cases, as the alternative build of the library has it. */
  predicate MustBackshiftByCases(idx: nat, nidx: nat, kidx: nat) {
    if idx <= nidx then kidx <= idx || kidx > nidx else kidx > nidx && kidx <= idx
  }

  /** Both forms say: the home is outside the cyclic interval (hole, n], i.e. the probe of the
      entry starts at or before the hole. */
  lemma BackshiftTestIsCyclic(n: nat, idx: nat, nidx: nat, kidx: nat)
    requires idx < n && nidx < n && kidx < n && idx != nidx
    ensures MustBackshift(idx, nidx, kidx) == MustBackshiftByCases(idx, nidx, kidx)
    ensures MustBackshift(idx, nidx, kidx) <==> !(0 < Dist(n, idx, kidx) <= Dist(n, idx, nidx))
    ensures MustBackshift(idx, nidx, kidx) <==> OnPath(n, kidx, idx, nidx)
  {
  }

  /** Loop invariant of the deletion: with the hole emptied the table holds `m`, only probes through
      the hole are broken, and no entry scanned so far (after the hole, up to `last`) is probed
      through it. */
  ghost predicate Shifting(hash: Hash, bits: nat, b: seq<Entry>, m: map<nat, nat>, hole: nat, last: nat) {
    && Shape(hash, bits, b) && Unique(b) && hole < |b| && last < |b|
    && !Full(b, hole) && ReachedBut(hash, bits, b, hole) && Holds(b, m)
    && forall i :: 0 <= i < |b| && 0 < Dist(|b|, hole, i) <= Dist(|b|, hole, last) ==>
         Full(b, i) && !OnPath(|b|, Home(hash, bits, b, i), hole, i)
  }

  /** Emptying a bucket starts the scan with the key gone from the map. */
  lemma ShiftStart(hash: Hash, bits: nat, b: seq<Entry>, m: map<nat, nat>, idx: nat, e: Entry)
    requires e.key == 0
    requires Represents(hash, bits, b, m) && idx < |b| && Full(b, idx)
    ensures Shifting(hash, bits, b[idx := e], m - {b[idx].key}, idx, idx)
    ensures Count(b[idx := e]) == Count(b) - 1
  {
    var c := b[idx := e];
    CountUpdate(b, idx, e);
    assert forall i :: 0 <= i < |b| && i != idx ==> Home(hash, bits, c, i) == Home(hash, bits, b, i);
    forall k | k in m - {b[idx].key}
      ensures k != 0 && exists i :: 0 <= i < |c| && c[i].key == k
    {
      var i :| 0 <= i < |b| && b[i].key == k;
      assert c[i].key == k;
    }
  }

  /** An entry that must not shift is simply scanned over. */
  lemma ShiftSkip(hash: Hash, bits: nat, b: seq<Entry>, m: map<nat, nat>, hole: nat, last: nat)
    requires Shifting(hash, bits, b, m, hole, last)
    requires Next(|b|, last) != hole && Full(b, Next(|b|, last))
    requires !OnPath(|b|, Home(hash, bits, b, Next(|b|, last)), hole, Next(|b|, last))
    ensures Shifting(hash, bits, b, m, hole, Next(|b|, last))
  {
    var n := Next(|b|, last);
    forall i | 0 <= i < |b| && 0 < Dist(|b|, hole, i) <= Dist(|b|, hole, n)
      ensures Full(b, i) && !OnPath(|b|, Home(hash, bits, b, i), hole, i)
    {
      if i != n { assert Dist(|b|, hole, i) <= Dist(|b|, hole, last); }
    }
  }

  /** Moving an entry that is probed through the hole back into it breaks only probes through `n`. */
  lemma MoveReached(hash: Hash, bits: nat, b: seq<Entry>, hole: nat, n: nat, e: Entry)
    requires e.key == 0
    requires Shape(hash, bits, b) && hole < |b| && n < |b| && hole != n
    requires !Full(b, hole) && Full(b, n) && ReachedBut(hash, bits, b, hole)
    requires OnPath(|b|, Home(hash, bits, b, n), hole, n)
    ensures ReachedBut(hash, bits, b[hole := b[n]][n := e], n)
  {
    var c := b[hole := b[n]][n := e];
    forall i, j | 0 <= i < |c| && 0 <= j < |c| && j != n && Full(c, i)
                  && OnPath(|c|, Home(hash, bits, c, i), j, i)
      ensures Full(c, j)
    {
      var i0 := if i == hole then n else i;
      assert Home(hash, bits, c, i) == Home(hash, bits, b, i0);
      assert OnPath(|b|, Home(hash, bits, b, i0), j, i0);
      if j != hole { assert Full(b, j) && c[j] == b[j]; }
    }
  }

  lemma MoveHolds(b: seq<Entry>, m: map<nat, nat>, hole: nat, n: nat, e: Entry)
    requires e.key == 0
    requires Unique(b) && Holds(b, m) && hole < |b| && n < |b| && hole != n && !Full(b, hole) && Full(b, n)
    ensures Unique(b[hole := b[n]][n := e]) && Holds(b[hole := b[n]][n := e], m)
  {
    var c := b[hole := b[n]][n := e];
    forall k | k in m
      ensures k != 0 && exists i :: 0 <= i < |c| && c[i].key == k
    {
      var i :| 0 <= i < |b| && b[i].key == k;
      assert c[if i == n then hole else i].key == k;
    }
  }

  lemma MoveCount(b: seq<Entry>, hole: nat, n: nat, e: Entry)
    requires e.key == 0 && hole < |b| && n < |b| && hole != n && !Full(b, hole) && Full(b, n)
    ensures Count(b[hole := b[n]][n := e]) == Count(b)
  {
    CountUpdate(b, hole, b[n]);
    CountUpdate(b[hole := b[n]], n, e);
  }

  /** Moving the entry at `n` into the hole keeps the map and moves the hole to `n`. */
  lemma ShiftMove(hash: Hash, bits: nat, b: seq<Entry>, m: map<nat, nat>, hole: nat, last: nat, e: Entry)
    requires e.key == 0
    requires Shifting(hash, bits, b, m, hole, last)
    requires Next(|b|, last) != hole && Full(b, Next(|b|, last))
    requires OnPath(|b|, Home(hash, bits, b, Next(|b|, last)), hole, Next(|b|, last))
    ensures var n := Next(|b|, last);
            var c := b[hole := b[n]][n := e];
            Shifting(hash, bits, c, m, n, n) && Count(c) == Count(b)
  {
    MoveReached(hash, bits, b, hole, Next(|b|, last), e);
    MoveHolds(b, m, hole, Next(|b|, last), e);
    MoveCount(b, hole, Next(|b|, last), e);
  }

  /** When the scan meets an empty bucket, or comes round to the hole, nothing is probed through
      the hole any more: the table represents the map. */
  lemma ShiftDone(hash: Hash, bits: nat, b: seq<Entry>, m: map<nat, nat>, hole: nat, last: nat)
    requires Shifting(hash, bits, b, m, hole, last)
    requires Next(|b|, last) == hole || !Full(b, Next(|b|, last))
    ensures Represents(hash, bits, b, m)
  {
    forall i: nat, j: nat | i < |b| && j < |b| && Full(b, i) && OnPath(|b|, Home(hash, bits, b, i), j, i)
      ensures Full(b, j)
    {
      NotThrough(hash, bits, b, m, hole, last, i);
    }
  }

  lemma NotThrough(hash: Hash, bits: nat, b: seq<Entry>, m: map<nat, nat>, hole: nat, last: nat, i: nat)
    requires Shifting(hash, bits, b, m, hole, last) && i < |b| && Full(b, i)
    requires Next(|b|, last) == hole || !Full(b, Next(|b|, last))
    ensures !OnPath(|b|, Home(hash, bits, b, i), hole, i)
  {
    PathPasses(|b|, Home(hash, bits, b, i), hole, last, i);
  }

  /** A path over the hole to an entry that lies beyond `last` passes the bucket after `last`. */
  lemma PathPasses(n: nat, s: nat, hole: nat, last: nat, i: nat)
    requires s < n && hole < n && last < n && i < n && i != hole && i != Next(n, last)
    ensures OnPath(n, s, hole, i) && !(0 < Dist(n, hole, i) <= Dist(n, hole, last)) ==>
            Next(n, last) != hole && OnPath(n, s, Next(n, last), i)
  {
  }

  /** Bucket `i` with its key cleared. */
  function Vacate(b: seq<Entry>, i: nat): seq<Entry>
    requires i < |b|
  {
    b[i := b[i].(key := 0)]
  }

  /** What the deletion makes of a table with a hole, scanning from bucket `n`: an entry whose probe
      passes the hole moves into it and leaves a hole; an empty bucket ends the scan. `free` is an
      empty bucket other than the hole, which bounds the scan. */
  ghost function Shifted(hash: Hash, bits: nat, v: seq<Entry>, hole: nat, n: nat, free: nat): seq<Entry>
    requires Shape(hash, bits, v) && hole < |v| && n < |v|
    requires free < |v| && free != hole && !Full(v, free)
    decreases Dist(|v|, n, free)
  {
    if n == hole || !Full(v, n) then v
    else if OnPath(|v|, Home(hash, bits, v, n), hole, n) then
      Shifted(hash, bits, Vacate(v[hole := v[n]], n), n, Next(|v|, n), free)
    else
      Shifted(hash, bits, v, hole, Next(|v|, n), free)
  }

  lemma {:induction false} ShiftedKeeps(hash: Hash, bits: nat, v: seq<Entry>, m: map<nat, nat>,
                                        hole: nat, last: nat, free: nat)
    requires Shifting(hash, bits, v, m, hole, last)
    requires free < |v| && free != hole && !Full(v, free)
    ensures var r := Shifted(hash, bits, v, hole, Next(|v|, last), free);
            Represents(hash, bits, r, m) && Count(r) == Count(v)
    decreases Dist(|v|, Next(|v|, last), free)
  {
    var n := Next(|v|, last);
    if n == hole || !Full(v, n) {
      ShiftDone(hash, bits, v, m, hole, last);
    } else if OnPath(|v|, Home(hash, bits, v, n), hole, n) {
      ShiftMove(hash, bits, v, m, hole, last, v[n].(key := 0));
      ShiftedKeeps(hash, bits, Vacate(v[hole := v[n]], n), m, n, n, free);
    } else {
      ShiftSkip(hash, bits, v, m, hole, last);
      ShiftedKeeps(hash, bits, v, m, hole, n, free);
    }
  }

  /** Deleting bucket `at` leaves exactly the old map without its key: every other key keeps its
      value and stays reachable from its home, for any hash and any wraparound. */
  lemma ShiftedRemoves(hash: Hash, bits: nat, b: seq<Entry>, m: map<nat, nat>, at: nat, free: nat)
    requires Represents(hash, bits, b, m) && at < |b| && Full(b, at) && free < |b| && !Full(b, free)
    ensures var r := Shifted(hash, bits, Vacate(b, at), at, Next(|b|, at), free);
            Represents(hash, bits, r, m - {b[at].key}) && Count(r) == Count(b) - 1
  {
    ShiftStart(hash, bits, b, m, at, b[at].(key := 0));
    ShiftedKeeps(hash, bits, Vacate(b, at), m - {b[at].key}, at, at, free);
  }
}
