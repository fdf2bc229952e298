/** The open-addressing hash map: a mutable bucket array that agrees with a finite map. */
module HashMap {
  import opened Bits
  import opened Probing

  const MAX_BITS := 31

  /** The bookkeeping agrees with the table, the table represents `m`, and the load is at most 3/4 of a
      power-of-two capacity. A zeroed structure, with no buckets, is a sound empty map. */
  ghost predicate Sound(hash: Hash, capacity: nat, threshold: nat, size: nat, mask: nat, nbits: nat, isFixed: bool,
                        b: seq<Entry>, m: map<nat, nat>)
  {
    && |b| == capacity && size == |m| == Count(b) && size <= threshold
    && (capacity == 0 ==> threshold == nbits == 0 && !isFixed)
    && (capacity > 0 ==>
          && 2 <= nbits <= MAX_BITS && mask == capacity - 1
          && threshold == capacity / 2 + capacity / 4
          && Represents(hash, nbits, b, m))
  }

  /** A table of at most twice three quarters of its entries has room under the new threshold. */
  lemma HalfFull(capacity: nat, size: nat, bits: nat)
    requires bits >= 2 && size <= capacity / 2 + capacity / 4 && (size == 0 || 2 * capacity <= Pow2(bits))
    ensures size < Pow2(bits) / 2 + Pow2(bits) / 4
  {
    Pow2Quarters(bits);
  }

  /** The size of the next larger table, as a power of two; a table has at least four buckets. */
  function GrownBits(bits: nat): nat {
    if bits == 0 then 2 else bits + 1
  }

  class HashMap {
    const hash: Hash
    const maxKey: nat            // the largest key of the key type, i.e. -1 converted to it
    var buckets: array<Entry>
    var capacity: nat
    var threshold: nat
    var size: nat
    var mask: nat
    var nbits: nat
    var isFixed: bool
    ghost var Model: map<nat, nat>   // the associations, over sanitized keys

    ghost predicate Valid()
      reads this, buckets
    {
      && GoodHash(hash) && maxKey > 0 && buckets.Length == capacity
      && Sound(hash, capacity, threshold, size, mask, nbits, isFixed, buckets[..], Model)
    }

    /** Key 0 marks an empty bucket, so user key 0 is stored as the largest key. */
    function Sanitize(key: nat): nat {
      if key == 0 then maxKey else key
    }

    constructor (hash: Hash, maxKey: nat)
      requires GoodHash(hash) && maxKey > 0
      ensures Valid() && Model == map[] && capacity == 0 && !isFixed && fresh(buckets)
      ensures this.hash == hash && this.maxKey == maxKey
    {
      this.hash, this.maxKey := hash, maxKey;
      buckets := new Entry[0];
      capacity, threshold, size, mask, nbits, isFixed := 0, 0, 0, 0, 0, false;
      Model := map[];
    }

    /** A static buffer is accepted exactly when its size is a power of two and at least 4. */
    method Attach(buffer: array<Entry>) returns (ok: bool)
      requires GoodHash(hash) && maxKey > 0 && buffer.Length <= Pow2(MAX_BITS)
      requires forall i :: 0 <= i < buffer.Length ==> buffer[i].key == 0
      modifies this
      ensures ok <==> buffer.Length >= 4 && exists k: nat :: buffer.Length == Pow2(k)
      ensures ok ==> Valid() && Model == map[] && buckets == buffer && isFixed
      ensures !ok ==> unchanged(this)
    {
      var cap := buffer.Length;
      if cap < 4 { return false; }
      var isPow2 := TestPow2(cap);
      if !isPow2 { return false; }
      var bits := CalcBits(cap - 1);
      BitsBound(bits, MAX_BITS);
      Take(buffer, bits);
      return true;
    }

    method Take(buffer: array<Entry>, bits: nat)
      requires GoodHash(hash) && maxKey > 0 && 2 <= bits <= MAX_BITS && buffer.Length == Pow2(bits)
      requires forall i :: 0 <= i < buffer.Length ==> buffer[i].key == 0
      modifies this
      ensures Valid() && Model == map[] && buckets == buffer && isFixed
    {
      EmptySound(hash, buffer.Length, bits, buffer[..]);
      Adopt(buffer, bits, 0, true, map[]);
    }

    /** Another array of buckets, with `n` entries. */
    method Adopt(table: array<Entry>, bits: nat, n: nat, fixed: bool, ghost m: map<nat, nat>)
      requires GoodHash(hash) && maxKey > 0 && table.Length > 0
      requires var cap := table.Length;
               Sound(hash, cap, cap / 2 + cap / 4, n, cap - 1, bits, fixed, table[..], m)
      modifies this
      ensures Valid() && buckets == table && capacity == table.Length && nbits == bits
      ensures size == n && threshold == capacity / 2 + capacity / 4 && isFixed == fixed && Model == m
    {
      var cap := table.Length;
      buckets, capacity, threshold, size, mask, nbits := table, cap, cap / 2 + cap / 4, n, cap - 1, bits;
      isFixed, Model := fixed, m;
    }

    /** Where linear probing for `key` stops: at the key, or at the first empty bucket. */
    method Probe(key: nat) returns (idx: nat)
      requires Valid() && capacity > 0 && key > 0
      ensures idx < capacity
      ensures key in Model ==> buckets[idx] == Entry(key, Model[key])
      ensures key !in Model ==> buckets[idx].key == 0
      ensures ProbedPast(hash, nbits, buckets[..], key, idx)
    {
      idx := Seek(hash, buckets, nbits, mask, key);
      ProbeFinds(hash, nbits, buckets[..], Model, key, idx);
    }

    /** Rehash into a table of at least `want` buckets. `alloc` is the allocator's answer; a table
        of 2^32 buckets or more is never allocated. */
    method Resize(want: nat, alloc: bool) returns (ok: bool)
      requires Valid() && want >= 1 && (size == 0 || want > capacity)
      modifies this
      ensures Valid() && Model == old(Model) && size == old(size) && isFixed == old(isFixed)
      ensures ok <==> !isFixed && alloc && CalcBits(want - 1) <= MAX_BITS
      ensures ok ==> fresh(buckets) && capacity >= want && size < threshold
      ensures ok ==> nbits == if CalcBits(want - 1) < 2 then 2 else CalcBits(want - 1)
      ensures !ok ==> unchanged(this)
    {
      if isFixed { return false; }
      var bits := CalcBits(want - 1);
      if bits < 2 { bits := 2; }
      if !alloc || bits > MAX_BITS { return false; }
      if size > 0 { Pow2Doubles(nbits, bits, want - 1); }
      GrowTo(bits);
      return true;
    }

    /** Ask for one bucket more than there are. */
    method Grow(alloc: bool) returns (ok: bool)
      requires Valid()
      modifies this
      ensures Valid() && Model == old(Model) && isFixed == old(isFixed)
      ensures ok <==> !old(isFixed) && alloc && old(nbits) < MAX_BITS
      ensures ok ==> fresh(buckets) && size < threshold && nbits == GrownBits(old(nbits))
      ensures !ok ==> unchanged(this)
    {
      if capacity > 0 { CalcBitsOfPow2(nbits); }
      ok := Resize(capacity + 1, alloc);
    }

    method GrowTo(bits: nat)
      requires Valid() && 2 <= bits <= MAX_BITS && !isFixed && (size == 0 || 2 * capacity <= Pow2(bits))
      modifies this
      ensures Valid() && Model == old(Model) && size == old(size) && !isFixed
      ensures fresh(buckets) && capacity == Pow2(bits) && nbits == bits && size < threshold
    {
      var table := new Entry[Pow2(bits)](_ => Entry(0, 0));
      HalfFull(capacity, size, bits);
      var n := Rehash(hash, buckets, table, bits, Model);
      Adopt(table, bits, n, false, Model);
    }

    /** Growth is refused for a static buffer, by the allocator, or at the largest table. */
    ghost predicate GrowthRefused(alloc: bool)
      reads this
    {
      size >= threshold && (isFixed || !alloc || nbits == MAX_BITS)
    }

    /** Insert or update. The end index comes back exactly when growth is needed and refused, or
        for the reserved key, and then the map is as before. */
    method Put(userKey: nat, val: nat, alloc: bool) returns (idx: nat)
      requires Valid() && userKey <= maxKey
      modifies this, buckets
      ensures Valid() && (buckets == old(buckets) || fresh(buckets)) && isFixed == old(isFixed)
      ensures idx == capacity <==> old(GrowthRefused(alloc)) || userKey == maxKey
      ensures nbits == if old(size >= threshold && !GrowthRefused(alloc)) then GrownBits(old(nbits)) else old(nbits)
      ensures idx == capacity ==> Model == old(Model)
      ensures idx != capacity ==> idx < capacity && buckets[idx] == Entry(Sanitize(userKey), val)
      ensures idx != capacity ==> Model == old(Model)[Sanitize(userKey) := val]
    {
      if size >= threshold {
        var ok := Grow(alloc);
        if !ok { return capacity; }
      }
      if userKey == maxKey { return capacity; }
      idx := Store(Sanitize(userKey), val);
    }

    /** Write the association where its probe ends; there is room for one more entry. */
    method Store(key: nat, val: nat) returns (idx: nat)
      requires Valid() && key > 0 && size < threshold
      modifies this, buckets
      ensures Valid() && buckets == old(buckets) && capacity == old(capacity) && nbits == old(nbits)
      ensures isFixed == old(isFixed)
      ensures idx < capacity && buckets[idx] == Entry(key, val)
      ensures Model == old(Model)[key := val]
    {
      idx := Probe(key);
      Write(idx, key, val);
    }

    method Write(idx: nat, key: nat, val: nat)
      requires Valid() && key > 0 && idx < capacity
      requires if key in Model then buckets[idx].key == key
               else size < threshold && buckets[idx].key == 0 && ProbedPast(hash, nbits, buckets[..], key, idx)
      modifies this, buckets
      ensures Valid() && buckets == old(buckets) && capacity == old(capacity) && nbits == old(nbits)
      ensures isFixed == old(isFixed) && Model == old(Model)[key := val]
      ensures buckets[..] == old(buckets[..])[idx := Entry(key, val)]
    {
      ghost var b := buckets[..];
      StoreSound(hash, capacity, threshold, size, mask, nbits, isFixed, b, Model, idx, key, val);
      if buckets[idx].key == 0 { size := size + 1; }
      buckets[idx] := Entry(key, val);
      Model := Model[key := val];
      assert buckets[..] == b[idx := Entry(key, val)];
    }

    /** The index of a key, or the end index exactly when the key is not in the map. */
    method Get(userKey: nat) returns (idx: nat)
      requires Valid() && userKey <= maxKey
      ensures idx <= capacity && (idx < capacity <==> Sanitize(userKey) in Model)
      ensures idx < capacity ==> buckets[idx] == Entry(Sanitize(userKey), Model[Sanitize(userKey)])
    {
      if size == 0 { return capacity; }
      idx := Probe(Sanitize(userKey));
      if buckets[idx].key == 0 { idx := capacity; }
    }

    /** Remove the entry of an occupied bucket by backward shifting: the map loses exactly that key. */
    method Rem(at: nat) returns (idx: nat)
      requires Valid() && (size == 0 || at >= capacity || buckets[at].key != 0)
      modifies this, buckets
      ensures Valid() && buckets == old(buckets) && capacity == old(capacity) && nbits == old(nbits)
      ensures isFixed == old(isFixed)
      ensures old(size) == 0 || at >= capacity ==> idx == capacity && Model == old(Model)
      ensures old(size) > 0 && at < capacity ==>
                idx < capacity && Model == old(Model) - {old(buckets[at].key)} && buckets[idx].key == 0
    {
      if size == 0 || at >= capacity { return capacity; }
      ghost var b := buckets[..];
      ghost var free := EmptyExists(b);
      ShiftedRemoves(hash, nbits, b, Model, at, free);
      idx := ShiftBack(hash, buckets, nbits, mask, at, free);
      size := size - 1;
      Model := Model - {b[at].key};
    }

    /** Delete a key: gone from the map afterwards, and the end index exactly when it was not there. */
    method Del(userKey: nat) returns (idx: nat)
      requires Valid() && userKey <= maxKey
      modifies this, buckets
      ensures Valid() && buckets == old(buckets) && capacity == old(capacity) && nbits == old(nbits)
      ensures isFixed == old(isFixed)
      ensures idx <= capacity && (idx == capacity <==> Sanitize(userKey) !in old(Model))
      ensures Model == old(Model) - {Sanitize(userKey)}
    {
      idx := Get(Sanitize(userKey));
      if idx == capacity { return; }
      idx := Rem(idx);
    }

    /** The key at an index; 0 for the end index and for an empty bucket. */
    function Key(idx: nat): (k: nat)
      requires Valid()
      reads this, buckets
      ensures k != 0 ==> k in Model
    {
      if idx >= capacity || buckets[idx].key == 0 then 0
      else assert Full(buckets[..], idx); buckets[idx].key
    }

    /** The value at an index; 0 for the end index and for an empty bucket. */
    function Val(idx: nat): (v: nat)
      requires Valid()
      reads this, buckets
      ensures idx < capacity && buckets[idx].key != 0 ==>
                buckets[idx].key in Model && v == Model[buckets[idx].key]
    {
      if idx >= capacity || buckets[idx].key == 0 then 0
      else assert Full(buckets[..], idx); buckets[idx].val
    }

    /** Overwrite the value at an occupied index. */
    method Set(at: nat, val: nat) returns (idx: nat)
      requires Valid()
      modifies this, buckets
      ensures Valid() && buckets == old(buckets) && capacity == old(capacity) && nbits == old(nbits)
      ensures isFixed == old(isFixed)
      ensures idx == if at < capacity && old(buckets[at].key) != 0 then at else capacity
      ensures Model == if idx == capacity then old(Model) else old(Model)[old(buckets[at].key) := val]
      ensures forall i :: 0 <= i < capacity ==> buckets[i].key == old(buckets[i].key)
    {
      if at >= capacity || buckets[at].key == 0 { return capacity; }
      assert Full(buckets[..], at);
      Write(at, buckets[at].key, val);
      return at;
    }
  }

  /** An empty table of a power of two of buckets, four or more, is a sound empty map. */
  lemma EmptySound(hash: Hash, capacity: nat, nbits: nat, b: seq<Entry>)
    requires GoodHash(hash) && |b| == capacity == Pow2(nbits) && 2 <= nbits <= MAX_BITS
    requires forall i :: 0 <= i < |b| ==> b[i].key == 0
    ensures Sound(hash, capacity, capacity / 2 + capacity / 4, 0, capacity - 1, nbits, true, b, map[])
  {
    CountEmpty(b);
  }

  lemma BitsBound(n: nat, max: nat)
    requires 4 <= Pow2(n) <= Pow2(max)
    ensures 2 <= n <= max
  {
    if n > max { Pow2Monotone(max, n); }
  }

  lemma StoreSound(hash: Hash, capacity: nat, threshold: nat, size: nat, mask: nat, nbits: nat, isFixed: bool,
                   b: seq<Entry>, m: map<nat, nat>, idx: nat, key: nat, val: nat)
    requires Sound(hash, capacity, threshold, size, mask, nbits, isFixed, b, m) && key != 0 && idx < |b|
    requires if key in m then b[idx].key == key
             else size < threshold && b[idx].key == 0 && ProbedPast(hash, nbits, b, key, idx)
    ensures Sound(hash, capacity, threshold, if b[idx].key == 0 then size + 1 else size, mask, nbits, isFixed,
                  b[idx := Entry(key, val)], m[key := val])
  {
    if key in m {
      ReplaceAt(hash, nbits, b, m, idx, val);
    } else {
      InsertAt(hash, nbits, b, m, idx, key, val);
    }
  }

  /** The next bucket, by masking: the one after, and 0 after the last. */
  method Advance(idx: nat, mask: nat, bits: nat) returns (next: nat)
    requires mask == Pow2(bits) - 1 && idx <= mask
    ensures next == Next(mask + 1, idx)
  {
    MaskWraps(idx + 1, bits);
    next := BitAnd(idx + 1, mask);
  }

  /** The deletion loop: scan forward from the hole, moving back every entry that is probed through
      it, until an empty bucket. The vacated bucket keeps its stale value until the end. */
  method ShiftBack(hash: Hash, t: array<Entry>, bits: nat, mask: nat, at: nat, ghost free: nat) returns (idx: nat)
    requires Shape(hash, bits, t[..]) && bits <= MAX_BITS && mask == t.Length - 1 && at < t.Length
    requires free < t.Length && free != at && t[free].key == 0
    modifies t
    ensures t[..] == Shifted(hash, bits, Vacate(old(t[..]), at), at, Next(t.Length, at), free)
    ensures idx < t.Length && t[idx].key == 0
  {
    idx := at;
    var nidx: nat := Advance(idx, mask, bits);
    ghost var goal := Shifted(hash, bits, Vacate(t[..], at), at, nidx, free);
    while nidx != idx && t[nidx].key != 0
      invariant idx < t.Length && nidx < t.Length && free != idx && t[free].key == 0
      invariant Shifted(hash, bits, Vacate(t[..], idx), idx, nidx, free) == goal
      decreases Dist(t.Length, nidx, free)
    {
      ghost var b := t[..];
      var kidx := hash(t[nidx].key, bits);
      BackshiftTestIsCyclic(t.Length, idx, nidx, kidx);
      if MustBackshift(idx, nidx, kidx) {
        t[idx] := t[nidx];
        VacateMoves(b, t[..], idx, nidx);
        idx := nidx;
      }
      nidx := Advance(nidx, mask, bits);
    }
    ghost var b := t[..];
    t[idx] := t[idx].(key := 0);
    assert t[..] == Vacate(b, idx);
  }

  lemma VacateMoves(b: seq<Entry>, c: seq<Entry>, idx: nat, nidx: nat)
    requires idx < |b| && nidx < |b| && idx != nidx && c == b[idx := b[nidx]]
    ensures Vacate(c, nidx) == Vacate(Vacate(b, idx)[idx := b[nidx]], nidx)
  {
  }

  /** The probe loop. The test for having come round to the start is kept as an assertion: with an
      empty bucket in the table that exit is never taken. */
  method Seek(hash: Hash, t: array<Entry>, bits: nat, mask: nat, key: nat) returns (idx: nat)
    requires Shape(hash, bits, t[..]) && mask == t.Length - 1 && Count(t[..]) < t.Length
    ensures idx < t.Length && t[idx].key in {0, key}
    ensures ProbedPast(hash, bits, t[..], key, idx)
  {
    idx := hash(key, bits);
    var end := idx;
    ghost var b := t[..];
    ghost var free := EmptyExists(b);
    while t[idx].key != 0
      invariant idx < |b| && (idx == free || OnPath(|b|, end, idx, free))
      invariant ProbedPast(hash, bits, b, key, idx)
      decreases Dist(|b|, idx, free)
    {
      if t[idx].key == key { break; }
      idx := Advance(idx, mask, bits);
      assert idx != end;
    }
  }

  /** Put an entry in the first free bucket from its home: the inner loop of a rehash. */
  method Place(hash: Hash, t: array<Entry>, bits: nat, e: Entry, ghost m: map<nat, nat>)
    requires Represents(hash, bits, t[..], m) && bits <= MAX_BITS
    requires e.key != 0 && e.key !in m && Count(t[..]) < t.Length
    modifies t
    ensures Represents(hash, bits, t[..], m[e.key := e.val])
    ensures Count(t[..]) == old(Count(t[..])) + 1
  {
    ghost var b := t[..];
    var idx := Seek(hash, t, bits, t.Length - 1, e.key);
    ProbeFinds(hash, bits, b, m, e.key, idx);
    InsertAt(hash, bits, b, m, idx, e.key, e.val);
    t[idx] := e;
    assert t[..] == b[idx := e];
  }

  /** Copy every entry of `src` to its place in the zeroed table `t`: the map is unchanged. */
  method Rehash(hash: Hash, src: array<Entry>, t: array<Entry>, bits: nat, ghost m: map<nat, nat>) returns (n: nat)
    requires Shape(hash, bits, t[..]) && bits <= MAX_BITS && src != t && |m| < t.Length
    requires Unique(src[..]) && Holds(src[..], m)
    requires forall i :: 0 <= i < t.Length ==> t[i].key == 0
    modifies t
    ensures Represents(hash, bits, t[..], m) && n == Count(t[..]) == |m|
  {
    ghost var b := src[..];
    ghost var done: map<nat, nat> := map[];
    n := 0;
    CountEmpty(t[..]);
    for i := 0 to src.Length
      invariant Represents(hash, bits, t[..], done) && n == Count(t[..]) == |done|
      invariant Copied(b, i, m, done) && src[..] == b
    {
      var added;
      done, added := CopyNext(hash, t, bits, src[i], b, i, m, done);
      if added { n := n + 1; }
    }
    CopiedAll(b, m, done);
  }

  /** One bucket of the old table, copied if it is occupied. */
  method CopyNext(hash: Hash, t: array<Entry>, bits: nat, e: Entry, ghost b: seq<Entry>, ghost i: nat,
                  ghost m: map<nat, nat>, ghost done: map<nat, nat>)
    returns (ghost done': map<nat, nat>, added: bool)
    requires Represents(hash, bits, t[..], done) && bits <= MAX_BITS && Count(t[..]) == |done| && |m| < t.Length
    requires i < |b| && Unique(b) && Holds(b, m) && Copied(b, i, m, done) && e == b[i]
    modifies t
    ensures Represents(hash, bits, t[..], done') && Copied(b, i + 1, m, done')
    ensures Count(t[..]) == |done'| == |done| + if added then 1 else 0
  {
    added := e.key != 0;
    if added {
      done' := CopyOne(hash, t, bits, e, b, i, m, done);
    } else {
      CopiedSkip(b, i, m, done);
      done' := done;
    }
  }

  /** One entry of the old table into the new one. */
  method CopyOne(hash: Hash, t: array<Entry>, bits: nat, e: Entry, ghost b: seq<Entry>, ghost i: nat,
                 ghost m: map<nat, nat>, ghost done: map<nat, nat>) returns (ghost done': map<nat, nat>)
    requires Represents(hash, bits, t[..], done) && bits <= MAX_BITS && Count(t[..]) == |done| && |m| < t.Length
    requires i < |b| && Unique(b) && Holds(b, m) && Copied(b, i, m, done) && e == b[i] && e.key != 0
    modifies t
    ensures Represents(hash, bits, t[..], done') && Count(t[..]) == |done'| == |done| + 1
    ensures Copied(b, i + 1, m, done')
  {
    CopiedStep(b, i, m, done);
    Place(hash, t, bits, e, done);
    done' := done[e.key := e.val];
  }

  /** `done` is the part of `m` that the first `i` buckets of `b` hold. */
  ghost predicate Copied(b: seq<Entry>, i: nat, m: map<nat, nat>, done: map<nat, nat>)
    requires i <= |b|
  {
    && (forall j :: 0 <= j < i && Full(b, j) ==> b[j].key in done)
    && (forall k :: k in done ==> k in m && m[k] == done[k] && KeyIn(b, i, k))
  }

  /** `k` is a key of one of the first `i` buckets. */
  ghost predicate KeyIn(b: seq<Entry>, i: nat, k: nat)
    requires i <= |b|
  {
    exists j :: 0 <= j < i && b[j].key == k
  }

  lemma CopiedStep(b: seq<Entry>, i: nat, m: map<nat, nat>, done: map<nat, nat>)
    requires i < |b| && Unique(b) && Holds(b, m) && Copied(b, i, m, done) && Full(b, i)
    ensures b[i].key !in done && Copied(b, i + 1, m, done[b[i].key := b[i].val])
    ensures |done| < |m|
  {
    var key := b[i].key;
    NotCopied(b, i);
    assert key in m;
    var done' := done[key := b[i].val];
    forall k | k in done' ensures k in m && m[k] == done'[k] && KeyIn(b, i + 1, k) {
      if k == key {
        assert b[i].key == k;
      } else {
        KeyStays(b, i, k);
      }
    }
    OneMore(done, key, b[i].val, m);
  }

  lemma OneMore(done: map<nat, nat>, key: nat, val: nat, m: map<nat, nat>)
    requires key !in done && key in m && done.Keys <= m.Keys
    ensures |done| < |m|
  {
    SmallerMap(done[key := val], m);
  }

  lemma CopiedSkip(b: seq<Entry>, i: nat, m: map<nat, nat>, done: map<nat, nat>)
    requires i < |b| && Copied(b, i, m, done) && !Full(b, i)
    ensures Copied(b, i + 1, m, done)
  {
    forall k | k in done ensures KeyIn(b, i + 1, k) { KeyStays(b, i, k); }
  }

  lemma NotCopied(b: seq<Entry>, i: nat)
    requires i < |b| && Unique(b) && Full(b, i)
    ensures !KeyIn(b, i, b[i].key)
  {
  }

  lemma KeyStays(b: seq<Entry>, i: nat, k: nat)
    requires i < |b| && KeyIn(b, i, k)
    ensures KeyIn(b, i + 1, k)
  {
  }

  lemma CopiedAll(b: seq<Entry>, m: map<nat, nat>, done: map<nat, nat>)
    requires Holds(b, m) && Copied(b, |b|, m, done)
    ensures done == m
  {
    forall k | k in m
      ensures k in done
    {
      var i :| 0 <= i < |b| && b[i].key == k;
      assert Full(b, i);
    }
  }

  /** More room than a power of two asks for at least the next power. */
  lemma Pow2Doubles(old_bits: nat, bits: nat, n: nat)
    requires Pow2(old_bits) <= n < Pow2(bits)
    ensures 2 * Pow2(old_bits) <= Pow2(bits)
  {
    if old_bits < bits { Pow2Monotone(old_bits, bits); } else { Pow2Monotone(bits, old_bits); }
  }

  lemma SmallerMap(a: map<nat, nat>, b: map<nat, nat>)
    requires a.Keys <= b.Keys
    ensures |a| <= |b|
  {
    assert b.Keys == a.Keys + (b.Keys - a.Keys);
  }

  lemma Pow2Quarters(bits: nat)
    requires bits >= 2
    ensures Pow2(bits) % 4 == 0
  {
    var half, quarter := Pow2(bits - 1), Pow2(bits - 2);
    assert half == 2 * quarter;
    assert Pow2(bits) == 2 * half;
  }

  lemma {:induction false} OnlyPow2(c: nat, k: nat)
    requires c > 0
    ensures c == Pow2(k) ==> k == CalcBits(c - 1)
  {
    var r := CalcBits(c - 1);
    if k < r {
      Pow2Monotone(k, r - 1);
    } else if k > r {
      Pow2Monotone(r, k);
    }
  }

  /** The capacity test: `c & (c - 1)` is zero for powers of two and only for them. */
  method TestPow2(c: nat) returns (ok: bool)
    requires c > 0
    ensures ok <==> exists k: nat :: c == Pow2(k)
    ensures ok ==> c == Pow2(CalcBits(c - 1))
  {
    PowerOfTwoTest(c);
    ok := BitAnd(c, c - 1) == 0;
    if !ok {
      forall k: nat ensures c != Pow2(k) { OnlyPow2(c, k); }
    }
  }

  // ---- hash functions ----

  /** 32-bit Fibonacci hash: fold, multiply, keep the top `bits` bits. */
  function MapHash32(key: nat, bits: nat): nat
    requires bits <= 32
  {
    Shr(BitXor(key, Shr(key, 16)) * 2654435761 % Pow2(32), 32 - bits)
  }

  /** 64-bit Fibonacci hash. */
  function MapHash64(key: nat, bits: nat): nat
    requires bits <= 64
  {
    Shr(BitXor(key, Shr(key, 33)) * 0x9E3779B97F4A7C15 % Pow2(64), 64 - bits)
  }

  /** Both hashes always name a bucket of a table of 2^bits buckets. */
  lemma HashesStayInTable()
    ensures GoodHash((key, bits) => if bits <= 32 then MapHash32(key, bits) else 0)
    ensures GoodHash((key, bits) => if bits <= 32 then MapHash64(key, bits) else 0)
  {
    forall key, bits: nat | bits <= 32
      ensures MapHash32(key, bits) < Pow2(bits) && MapHash64(key, bits) < Pow2(bits)
    {
      ShrBound(BitXor(key, Shr(key, 16)) * 2654435761 % Pow2(32), 32 - bits, bits);
      ShrBound(BitXor(key, Shr(key, 33)) * 0x9E3779B97F4A7C15 % Pow2(64), 64 - bits, bits);
    }
  }
}
