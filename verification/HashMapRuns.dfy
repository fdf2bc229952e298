/** The table as a map over whole runs of operations. */
module HashMapRuns {
  import opened Bits
  import H = HashMap
  import P = Probing

  /** `Rem` and `Set` work on the index that a get of the key gives; `RemAt` and `SetAt` on any index, if there is a
      key there. */
  datatype Op =
    | Put(key: nat, val: nat, alloc: bool)
    | Get(key: nat)
    | Del(key: nat)
    | Rem(key: nat)
    | Set(key: nat, val: nat)
    | RemAt(at: nat)
    | SetAt(at: nat, val: nat)

  /** `KeyAt` names the key that was at the index, or 0. */
  datatype Reply = Stored(ok: bool) | Found(val: nat) | Missing | Deleted(ok: bool) | KeyAt(key: nat)

  /** A finite map in a table of 2^bits buckets, or in none, that may be a static buffer, and the keys bucket by
      bucket. */
  datatype Table = Table(m: map<nat, nat>, bits: nat, isFixed: bool, keys: seq<nat>)

  predicate Allowed(maxKey: nat, op: Op) {
    op.RemAt? || op.SetAt? || op.key <= maxKey
  }

  /** Three quarters of the buckets. */
  function Threshold(bits: nat): nat {
    if bits == 0 then 0 else Pow2(bits) / 2 + Pow2(bits) / 4
  }

  predicate Crowded(t: Table) {
    |t.m| >= Threshold(t.bits)
  }

  /** A put needs growth, and the table may not grow: a static buffer, no memory, or the largest table. */
  predicate Refused(t: Table, alloc: bool) {
    Crowded(t) && (t.isFixed || !alloc || t.bits == H.MAX_BITS)
  }

  function Sanitized(maxKey: nat, key: nat): nat {
    if key == 0 then maxKey else key
  }

  /** The key in a bucket, or 0. */
  function At(t: Table, at: nat): nat {
    if at < |t.keys| then t.keys[at] else 0
  }

  /** Each key of the map is in one bucket, and nothing else is in any. */
  ghost predicate Laid(t: Table) {
    && |t.keys| == (if t.bits == 0 then 0 else Pow2(t.bits))
    && (forall i :: 0 <= i < |t.keys| && t.keys[i] != 0 ==> t.keys[i] in t.m)
    && (forall k :: k in t.m ==> k != 0 && k in t.keys)
    && (forall i, j :: 0 <= i < j < |t.keys| && t.keys[i] == t.keys[j] ==> t.keys[i] == 0)
  }

  /** What a finite map replies; a put is refused only as above, and for the reserved key. */
  function Says(maxKey: nat, t: Table, op: Op): Reply {
    match op
    case Put(key, _, alloc) => Stored(key != maxKey && !Refused(t, alloc))
    case Get(key) => var k := Sanitized(maxKey, key); if k in t.m then Found(t.m[k]) else Missing
    case Del(key) => Deleted(Sanitized(maxKey, key) in t.m)
    case Rem(key) => Deleted(Sanitized(maxKey, key) in t.m)
    case Set(key, _) => Stored(Sanitized(maxKey, key) in t.m)
    case RemAt(at) => KeyAt(At(t, at))
    case SetAt(at, _) => KeyAt(At(t, at))
  }

  function Update(t: Table, k: nat, v: nat): Table {
    if k in t.m then t.(m := t.m[k := v]) else t
  }

  /** The table after it, but for the buckets the keys are in. A put grows a crowded table first. */
  function Turn(maxKey: nat, t: Table, op: Op): Table {
    match op
    case Put(key, v, alloc) =>
      if Refused(t, alloc) then t
      else
        var t' := if Crowded(t) then t.(bits := H.GrownBits(t.bits)) else t;
        if key == maxKey then t' else t'.(m := t.m[Sanitized(maxKey, key) := v])
    case Get(_) => t
    case Del(key) => t.(m := t.m - {Sanitized(maxKey, key)})
    case Rem(key) => t.(m := t.m - {Sanitized(maxKey, key)})
    case Set(key, v) => Update(t, Sanitized(maxKey, key), v)
    case RemAt(at) => if At(t, at) == 0 then t else t.(m := t.m - {At(t, at)})
    case SetAt(at, v) => Update(t, At(t, at), v)
  }

  /** Gets and sets move no key. */
  predicate Still(op: Op) {
    op.Get? || op.Set? || op.SetAt?
  }

  /** One operation, from `t` to `t'`. */
  ghost predicate Acts(maxKey: nat, t: Table, op: Op, reply: Reply, t': Table) {
    && reply == Says(maxKey, t, op) && t' == Turn(maxKey, t, op).(keys := t'.keys)
    && (Still(op) ==> t'.keys == t.keys)
  }

  /** A step: each key is in one bucket again. */
  ghost predicate Steps(maxKey: nat, t: Table, op: Op, reply: Reply, t': Table) {
    Acts(maxKey, t, op, reply, t') && Laid(t')
  }

  /** A run: `tables[i]` is the table before operation `i`. */
  ghost predicate Steady(maxKey: nat, tables: seq<Table>, ops: seq<Op>, out: seq<Reply>) {
    && |out| <= |ops| && |tables| == |out| + 1
    && forall i: nat :: i < |out| ==> StepAt(maxKey, tables, ops, out, i)
  }

  ghost predicate StepAt(maxKey: nat, tables: seq<Table>, ops: seq<Op>, out: seq<Reply>, i: nat)
    requires i < |ops| && i < |out| && i + 1 < |tables|
  {
    Steps(maxKey, tables[i], ops[i], out[i], tables[i + 1])
  }

  lemma SteadyMore(maxKey: nat, tables: seq<Table>, ops: seq<Op>, out: seq<Reply>, reply: Reply, t': Table)
    requires Steady(maxKey, tables, ops, out) && |out| < |ops|
    requires Steps(maxKey, tables[|out|], ops[|out|], reply, t')
    ensures Steady(maxKey, tables + [t'], ops, out + [reply])
  {
    var tables', out' := tables + [t'], out + [reply];
    forall i: nat | i < |out'| ensures StepAt(maxKey, tables', ops, out', i) {
      if i < |out| {
        assert StepAt(maxKey, tables, ops, out, i);
        assert tables'[i + 1] == tables[i + 1];
      }
    }
  }

  /** A scan of all indices while nothing moves meets each key of the map once. */
  lemma ScanMeets(t: Table, k: nat)
    requires Laid(t) && k in t.m
    ensures exists i: nat :: i < |t.keys| && At(t, i) == k && forall j: nat :: At(t, j) == k ==> j == i
  {
    var i :| 0 <= i < |t.keys| && t.keys[i] == k;
    assert At(t, i) == k;
  }

  // ---- the steps of a hash map ----

  ghost function Keys(b: seq<P.Entry>): (s: seq<nat>)
    ensures |s| == |b| && forall i :: 0 <= i < |b| ==> s[i] == b[i].key
  {
    seq(|b|, i requires 0 <= i < |b| => b[i].key)
  }

  /** What a hash map stands for. */
  ghost function Stands(t: H.HashMap): Table
    reads t, t.buckets
  {
    Table(t.Model, t.nbits, t.isFixed, Keys(t.buckets[..]))
  }

  lemma StandsLaid(t: H.HashMap)
    requires t.Valid()
    ensures Laid(Stands(t))
  {
    var b, s := t.buckets[..], Stands(t);
    forall k | k in s.m ensures k != 0 && k in s.keys {
      var i :| 0 <= i < |b| && b[i].key == k;
      assert s.keys[i] == k;
    }
    forall i | 0 <= i < |s.keys| && s.keys[i] != 0 ensures s.keys[i] in s.m {
      assert P.Full(b, i);
    }
    forall i, j | 0 <= i < j < |s.keys| && s.keys[i] == s.keys[j] ensures s.keys[i] == 0 {
      assert P.Full(b, i) ==> i == j;
    }
  }

  method PutKey(t: H.HashMap, key: nat, val: nat, alloc: bool) returns (reply: Reply)
    requires t.Valid() && key <= t.maxKey
    modifies t, t.buckets
    ensures t.Valid() && (t.buckets == old(t.buckets) || fresh(t.buckets))
    ensures Acts(t.maxKey, old(Stands(t)), Put(key, val, alloc), reply, Stands(t))
  {
    ghost var was := Stands(t);
    assert t.threshold == Threshold(t.nbits);
    var idx := t.Put(key, val, alloc);
    reply := Stored(idx != t.capacity);
    PutActs(t.maxKey, was, key, val, alloc, idx != t.capacity, Stands(t));
  }

  lemma PutActs(maxKey: nat, t: Table, key: nat, val: nat, alloc: bool, ok: bool, t': Table)
    requires ok == (!Refused(t, alloc) && key != maxKey) && t'.isFixed == t.isFixed
    requires t'.bits == if Crowded(t) && !Refused(t, alloc) then H.GrownBits(t.bits) else t.bits
    requires t'.m == if ok then t.m[Sanitized(maxKey, key) := val] else t.m
    ensures Acts(maxKey, t, Put(key, val, alloc), Stored(ok), t')
  {
  }

  method GetKey(t: H.HashMap, key: nat) returns (reply: Reply)
    requires t.Valid() && key <= t.maxKey
    ensures Acts(t.maxKey, Stands(t), Get(key), reply, Stands(t))
  {
    var idx := t.Get(key);
    reply := if idx < t.capacity then Found(t.Val(idx)) else Missing;
  }

  method DelKey(t: H.HashMap, key: nat) returns (reply: Reply)
    requires t.Valid() && key <= t.maxKey
    modifies t, t.buckets
    ensures t.Valid() && t.buckets == old(t.buckets)
    ensures Acts(t.maxKey, old(Stands(t)), Del(key), reply, Stands(t))
  {
    ghost var was := Stands(t);
    var idx := t.Del(key);
    reply := Deleted(idx != t.capacity);
    DelActs(t.maxKey, was, key, Stands(t));
  }

  lemma DelActs(maxKey: nat, t: Table, key: nat, t': Table)
    requires t'.m == t.m - {Sanitized(maxKey, key)} && t'.bits == t.bits && t'.isFixed == t.isFixed
    ensures Acts(maxKey, t, Del(key), Deleted(Sanitized(maxKey, key) in t.m), t')
    ensures Acts(maxKey, t, Rem(key), Deleted(Sanitized(maxKey, key) in t.m), t')
  {
  }

  /** `rem` at the index that `get` gives. */
  method RemKey(t: H.HashMap, key: nat) returns (reply: Reply)
    requires t.Valid() && key <= t.maxKey
    modifies t, t.buckets
    ensures t.Valid() && t.buckets == old(t.buckets)
    ensures Acts(t.maxKey, old(Stands(t)), Rem(key), reply, Stands(t))
  {
    ghost var was := Stands(t);
    var ok := RemFound(t, key);
    reply := Deleted(ok);
    DelActs(t.maxKey, was, key, Stands(t));
  }

  method RemFound(t: H.HashMap, key: nat) returns (ok: bool)
    requires t.Valid() && key <= t.maxKey
    modifies t, t.buckets
    ensures t.Valid() && t.buckets == old(t.buckets) && ok == (t.Sanitize(key) in old(t.Model))
    ensures t.Model == old(t.Model) - {t.Sanitize(key)} && t.nbits == old(t.nbits) && t.isFixed == old(t.isFixed)
  {
    var at := t.Get(key);
    var idx := t.Rem(at);
    ok := idx != t.capacity;
  }

  /** `set` at the index that `get` gives. */
  method SetKey(t: H.HashMap, key: nat, val: nat) returns (reply: Reply)
    requires t.Valid() && key <= t.maxKey
    modifies t, t.buckets
    ensures t.Valid() && t.buckets == old(t.buckets)
    ensures Acts(t.maxKey, old(Stands(t)), Set(key, val), reply, Stands(t))
  {
    ghost var b := t.buckets[..];
    var at := t.Get(key);
    var idx := t.Set(at, val);
    reply := Stored(idx != t.capacity);
    SameKeys(b, t.buckets[..]);
  }

  lemma SameKeys(b: seq<P.Entry>, c: seq<P.Entry>)
    requires |b| == |c| && forall i :: 0 <= i < |b| ==> c[i].key == b[i].key
    ensures Keys(b) == Keys(c)
  {
  }

  /** `rem` at any index, if there is a key there. */
  method RemIndex(t: H.HashMap, at: nat) returns (reply: Reply)
    requires t.Valid()
    modifies t, t.buckets
    ensures t.Valid() && t.buckets == old(t.buckets)
    ensures Acts(t.maxKey, old(Stands(t)), RemAt(at), reply, Stands(t))
  {
    ghost var was := Stands(t);
    var key := t.Key(at);
    if key != 0 { RemThere(t, at); }
    reply := KeyAt(key);
    RemAtActs(t.maxKey, was, at, key, Stands(t));
  }

  method RemThere(t: H.HashMap, at: nat)
    requires t.Valid() && t.Key(at) != 0
    modifies t, t.buckets
    ensures t.Valid() && t.buckets == old(t.buckets) && t.nbits == old(t.nbits) && t.isFixed == old(t.isFixed)
    ensures t.Model == old(t.Model) - {old(t.Key(at))}
  {
    assert t.Key(at) in t.Model;
    var idx := t.Rem(at);
  }

  lemma RemAtActs(maxKey: nat, t: Table, at: nat, key: nat, t': Table)
    requires key == At(t, at) && (key == 0 ==> t' == t)
    requires key != 0 ==> t'.m == t.m - {key} && t'.bits == t.bits && t'.isFixed == t.isFixed
    ensures Acts(maxKey, t, RemAt(at), KeyAt(key), t')
  {
  }

  /** `set` at any index, if there is a key there. */
  method SetIndex(t: H.HashMap, at: nat, val: nat) returns (reply: Reply)
    requires t.Valid()
    modifies t, t.buckets
    ensures t.Valid() && t.buckets == old(t.buckets)
    ensures Acts(t.maxKey, old(Stands(t)), SetAt(at, val), reply, Stands(t))
  {
    ghost var was, b := Stands(t), t.buckets[..];
    var key := t.Key(at);
    reply := KeyAt(key);
    var idx := t.Set(at, val);
    SameKeys(b, t.buckets[..]);
    SetAtActs(t.maxKey, was, at, key, val, Stands(t));
  }

  lemma SetAtActs(maxKey: nat, t: Table, at: nat, key: nat, val: nat, t': Table)
    requires key == At(t, at) && (key != 0 ==> key in t.m) && 0 !in t.m
    requires t' == t.(m := if key == 0 then t.m else t.m[key := val])
    ensures Acts(maxKey, t, SetAt(at, val), KeyAt(key), t')
  {
  }

  method Act(t: H.HashMap, op: Op) returns (reply: Reply)
    requires t.Valid() && Allowed(t.maxKey, op)
    modifies t, t.buckets
    ensures t.Valid() && (t.buckets == old(t.buckets) || fresh(t.buckets))
    ensures Acts(t.maxKey, old(Stands(t)), op, reply, Stands(t))
  {
    match op
    case Put(key, val, alloc) => reply := PutKey(t, key, val, alloc);
    case Get(key) => reply := GetKey(t, key);
    case Del(key) => reply := DelKey(t, key);
    case Rem(key) => reply := RemKey(t, key);
    case Set(key, val) => reply := SetKey(t, key, val);
    case RemAt(at) => reply := RemIndex(t, at);
    case SetAt(at, val) => reply := SetIndex(t, at, val);
  }

  method Step(t: H.HashMap, op: Op) returns (reply: Reply)
    requires t.Valid() && Allowed(t.maxKey, op)
    modifies t, t.buckets
    ensures t.Valid() && (t.buckets == old(t.buckets) || fresh(t.buckets))
    ensures Steps(t.maxKey, old(Stands(t)), op, reply, Stands(t))
  {
    reply := Act(t, op);
    StandsLaid(t);
  }

  /** Over every run of operations, growth included, the table answers as a finite map does, and a put is refused
      exactly when it needs growth that is not to be had, or is of the reserved key. Each key is in one bucket at all
      times, gets and sets move none, and an operation at an index meets the key that is there. */
  method Run(t: H.HashMap, ops: seq<Op>) returns (out: seq<Reply>, ghost tables: seq<Table>)
    requires t.Valid() && forall i :: 0 <= i < |ops| ==> Allowed(t.maxKey, ops[i])
    modifies t, t.buckets
    ensures t.Valid() && |out| == |ops| && Steady(t.maxKey, tables, ops, out)
    ensures tables[0] == old(Stands(t)) && Laid(tables[0]) && tables[|ops|] == Stands(t)
  {
    out, tables := [], [Stands(t)];
    StandsLaid(t);
    ghost var maxKey, start := t.maxKey, Stands(t);
    while |out| < |ops|
      invariant t.Valid() && (t.buckets == old(t.buckets) || fresh(t.buckets))
      invariant Steady(maxKey, tables, ops, out) && tables[0] == start && tables[|out|] == Stands(t)
    {
      var reply := Step(t, ops[|out|]);
      SteadyMore(maxKey, tables, ops, out, reply, Stands(t));
      out, tables := out + [reply], tables + [Stands(t)];
    }
  }

  /** A put of an ordinary key is stored: with memory to be had, while the map is under three quarters of 2^31; in a
      static buffer, while it is under three quarters of the buffer. */
  lemma PutStored(maxKey: nat, t: Table, key: nat, val: nat, alloc: bool)
    requires key != maxKey
    requires if t.isFixed then |t.m| < Threshold(t.bits) else alloc && |t.m| < Threshold(H.MAX_BITS)
    ensures Says(maxKey, t, Put(key, val, alloc)) == Stored(true)
    ensures Turn(maxKey, t, Put(key, val, alloc)).m == t.m[Sanitized(maxKey, key) := val]
  {
  }
}
