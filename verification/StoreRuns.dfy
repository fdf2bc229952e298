/** The store as a map: what sets, gets and deletes do to the map it stands for, over whole runs. */
module StoreRuns {
  import opened Bytes
  import opened Chains
  import opened Entries
  import opened Arena
  import S = Store

  type Values = map<Key, seq<byte>>

  function Lookup(m: Values, key: Key): Option<seq<byte>> {
    if key in m then Some(m[key]) else None
  }

  /** The buckets stand for the map: no key twice, every key in its own bucket, the map's value for each. */
  ghost predicate Models(hash: Hash, contents: seq<seq<Entry>>, m: Values) {
    && |contents| == NUM_BUCKETS
    && (forall b :: 0 <= b < NUM_BUCKETS ==> Unique(contents[b]))
    && (forall k: Key :: Value(contents[Home(hash, k)], k) == Lookup(m, k))
    && (forall b, i :: 0 <= b < NUM_BUCKETS && 0 <= i < |contents[b]| ==> Home(hash, contents[b][i].key) == b)
  }

  /** A new store stands for the empty map. */
  lemma EmptyModels(hash: Hash, contents: seq<seq<Entry>>)
    requires |contents| == NUM_BUCKETS && forall b :: 0 <= b < NUM_BUCKETS ==> contents[b] == []
    ensures Models(hash, contents, map[])
  {
    forall k: Key ensures Value(contents[Home(hash, k)], k) == Lookup(map[], k) {
      assert contents[Home(hash, k)] == [];
    }
  }

  /** No key is a proper prefix of another key of its bucket. */
  ghost predicate PrefixFree(hash: Hash, keys: set<Key>) {
    forall k, l :: k in keys && l in keys && k != l && Home(hash, k) == Home(hash, l) ==> !(k <= l)
  }

  /** No key that is stored is a prefix of another key of its bucket that is asked for, nor the other way round. */
  ghost predicate Apart(hash: Hash, stored: set<Key>, keys: set<Key>) {
    forall k, l :: k in stored && l in keys && k != l && Home(hash, k) == Home(hash, l) ==> !(k <= l) && !(l <= k)
  }

  lemma ApartClear(hash: Hash, contents: seq<seq<Entry>>, m: Values, stored: set<Key>, keys: set<Key>, key: Key,
                   over: Over)
    requires Models(hash, contents, m) && Apart(hash, stored, keys) && m.Keys <= stored && key in keys
    ensures Clear(contents[Home(hash, key)], key, over)
  {
    var es := contents[Home(hash, key)];
    forall i | 0 <= i < |es| && Matches(key, es[i], over) ensures es[i].key == key {
      ValueAt(es, i);
      assert Home(hash, es[i].key) == Home(hash, key);
      assert Lookup(m, es[i].key).Some?;
      MatchIsPrefix(key, es[i], over);
    }
  }

  lemma SetModels(hash: Hash, contents: seq<seq<Entry>>, m: Values, key: Key, val: seq<byte>, over: Over)
    requires Models(hash, contents, m) && Clear(contents[Home(hash, key)], key, over)
    ensures var h := Home(hash, key); Models(hash, contents[h := PutIn(contents[h], key, val, over)], m[key := val])
  {
    var h := Home(hash, key);
    var es := contents[h];
    PutUnique(es, key, val, over);
    var contents', m' := contents[h := PutIn(es, key, val, over)], m[key := val];
    forall k: Key ensures Value(contents'[Home(hash, k)], k) == Lookup(m', k) {
      PutValue(es, key, val, over, k);
    }
  }

  lemma DelModels(hash: Hash, contents: seq<seq<Entry>>, m: Values, key: Key, over: Over)
    requires Models(hash, contents, m) && Clear(contents[Home(hash, key)], key, over)
    ensures var h := Home(hash, key); Models(hash, contents[h := DelIn(contents[h], key, over)], m - {key})
  {
    var h := Home(hash, key);
    var es := contents[h];
    DelUnique(es, key, over);
    var contents', m' := contents[h := DelIn(es, key, over)], m - {key};
    forall k: Key ensures Value(contents'[Home(hash, k)], k) == Lookup(m', k) {
      DelValue(es, key, over, k);
    }
  }

  // ---- runs ----

  /** An operation, with what the comparison meets past the ends of records and whether the allocator gives. */
  datatype Op =
    | Set(key: Key, val: seq<byte>, over: Over, gives: bool)
    | Get(key: Key, over: Over)
    | Del(key: Key, over: Over)

  datatype Reply = Stored(ok: bool) | Found(val: Option<seq<byte>>) | Deleted(ok: bool)

  /** The bytes a set takes in the file. */
  function Cost(op: Op): nat {
    if op.Set? then REC_HDR + |op.key| + |op.val| else 0
  }

  /** Is there room for the set: in the file, up to its end; on the heap, if the allocator gives. */
  predicate Fits(inFile: bool, next: nat, op: Op) {
    op.Set? ==> if inFile then next + Cost(op) <= DB_SIZE else op.gives
  }

  /** Where the arena ends after the first `i` operations: where it was, and the sets that fitted. */
  function EndAt(inFile: bool, next: nat, ops: seq<Op>, i: nat): nat
    requires i <= |ops|
  {
    if i == 0 then next
    else
      var end := EndAt(inFile, next, ops, i - 1);
      if inFile && Fits(inFile, end, ops[i - 1]) then end + Cost(ops[i - 1]) else end
  }

  predicate Accepted(inFile: bool, next: nat, ops: seq<Op>, i: nat)
    requires i < |ops|
  {
    Fits(inFile, EndAt(inFile, next, ops, i), ops[i])
  }

  // What the store does, as functions of what its buckets list.

  function Turn(hash: Hash, c: seq<seq<Entry>>, op: Op, ok: bool): (r: seq<seq<Entry>>)
    requires |c| == NUM_BUCKETS
    ensures |r| == NUM_BUCKETS
  {
    var h := Home(hash, op.key);
    match op
    case Set(key, val, over, _) => if ok then c[h := PutIn(c[h], key, val, over)] else c
    case Get(_, _) => c
    case Del(key, over) => c[h := DelIn(c[h], key, over)]
  }

  function Says(hash: Hash, c: seq<seq<Entry>>, op: Op, ok: bool): Reply
    requires |c| == NUM_BUCKETS
  {
    var h := Home(hash, op.key);
    match op
    case Set(_, _, _, _) => Stored(ok)
    case Get(key, over) => Found(GetIn(c[h], key, over))
    case Del(key, over) => Deleted(GetIn(c[h], key, over).Some?)
  }

  /** What the buckets list after the first `i` operations. */
  function ListedAt(hash: Hash, c: seq<seq<Entry>>, inFile: bool, next: nat, ops: seq<Op>, i: nat): (r: seq<seq<Entry>>)
    requires |c| == NUM_BUCKETS && i <= |ops|
    ensures |r| == NUM_BUCKETS
  {
    if i == 0 then c
    else Turn(hash, ListedAt(hash, c, inFile, next, ops, i - 1), ops[i - 1], Accepted(inFile, next, ops, i - 1))
  }

  function ReplyAt(hash: Hash, c: seq<seq<Entry>>, inFile: bool, next: nat, ops: seq<Op>, i: nat): Reply
    requires |c| == NUM_BUCKETS && i < |ops|
  {
    Says(hash, ListedAt(hash, c, inFile, next, ops, i), ops[i], Accepted(inFile, next, ops, i))
  }

  /** Addresses for new heap records: not null, not in use. */
  ghost predicate GoodAddresses(address: Memory -> Link) {
    forall m: Memory :: address(m) != 0 && address(m) !in m
  }

  method Step(s: S.Store, op: Op, address: Memory -> Link) returns (reply: Reply)
    requires s.Valid() && GoodAddresses(address)
    modifies s, s.buckets
    ensures s.Valid()
    ensures var ok := Fits(s.inFile, old(s.nextOffset), op);
            && reply == Says(s.hash, old(s.Contents()), op, ok)
            && s.Contents() == Turn(s.hash, old(s.Contents()), op, ok)
            && s.nextOffset == if s.inFile && ok then old(s.nextOffset) + Cost(op) else old(s.nextOffset)
  {
    match op
    case Set(key, val, over, gives) =>
      var ok := s.HashPut(key, val, over, if gives then Some(address(s.mem)) else None);
      reply := Stored(ok);
    case Get(key, over) =>
      var val := s.HashSearch(key, over);
      reply := Found(val);
    case Del(key, over) =>
      var ok := s.HashDel(key, over);
      reply := Deleted(ok);
  }

  /** A run so far: the replies to the first operations, and the state after them. */
  ghost predicate SoFar(s: S.Store, c: seq<seq<Entry>>, next: nat, ops: seq<Op>, out: seq<Reply>)
    reads s, s.buckets
  {
    && s.Valid() && |c| == NUM_BUCKETS && |out| <= |ops|
    && s.Contents() == ListedAt(s.hash, c, s.inFile, next, ops, |out|)
    && s.nextOffset == EndAt(s.inFile, next, ops, |out|)
    && forall i :: 0 <= i < |out| ==> out[i] == ReplyAt(s.hash, c, s.inFile, next, ops, i)
  }

  method More(s: S.Store, ghost c: seq<seq<Entry>>, ghost next: nat, ops: seq<Op>, out: seq<Reply>,
              address: Memory -> Link) returns (reply: Reply)
    requires SoFar(s, c, next, ops, out) && |out| < |ops| && GoodAddresses(address)
    modifies s, s.buckets
    ensures SoFar(s, c, next, ops, out + [reply])
  {
    reply := Step(s, ops[|out|], address);
  }

  /** Every run, whatever the keys: each reply is the one the functions give; a set is refused exactly when the file
      has no room left for it after the sets accepted before it, or the allocator gives nothing; and the store stays
      sound. */
  method Run(s: S.Store, ops: seq<Op>, address: Memory -> Link) returns (out: seq<Reply>)
    requires s.Valid() && GoodAddresses(address)
    modifies s, s.buckets
    ensures |out| == |ops| && SoFar(s, old(s.Contents()), old(s.nextOffset), ops, out)
  {
    out := [];
    ghost var c, next := s.Contents(), s.nextOffset;
    while |out| < |ops|
      invariant SoFar(s, c, next, ops, out)
    {
      var reply := More(s, c, next, ops, out, address);
      out := out + [reply];
    }
  }

  // ---- as a map ----

  function MapReply(m: Values, op: Op, ok: bool): Reply {
    match op
    case Set(_, _, _, _) => Stored(ok)
    case Get(key, _) => Found(Lookup(m, key))
    case Del(key, _) => Deleted(key in m)
  }

  function MapTurn(m: Values, op: Op, ok: bool): Values {
    match op
    case Set(key, val, _, _) => if ok then m[key := val] else m
    case Get(_, _) => m
    case Del(key, _) => m - {key}
  }

  function MapAt(m: Values, inFile: bool, next: nat, ops: seq<Op>, i: nat): Values
    requires i <= |ops|
  {
    if i == 0 then m else MapTurn(MapAt(m, inFile, next, ops, i - 1), ops[i - 1], Accepted(inFile, next, ops, i - 1))
  }

  /** Every reply of the run is the map's. */
  ghost predicate AsMap(hash: Hash, c: seq<seq<Entry>>, m: Values, inFile: bool, next: nat, ops: seq<Op>)
    requires |c| == NUM_BUCKETS
  {
    forall i: nat :: i < |ops| ==>
      ReplyAt(hash, c, inFile, next, ops, i)
      == MapReply(MapAt(m, inFile, next, ops, i), ops[i], Accepted(inFile, next, ops, i))
  }

  ghost predicate UsesOnly(ops: seq<Op>, keys: set<Key>) {
    forall i :: 0 <= i < |ops| ==> ops[i].key in keys
  }

  /** The sets that are accepted are of the keys `stored`. */
  ghost predicate StoresOnly(inFile: bool, next: nat, ops: seq<Op>, stored: set<Key>) {
    forall i: nat :: i < |ops| && Accepted(inFile, next, ops, i) && ops[i].Set? ==> ops[i].key in stored
  }

  lemma TurnModels(hash: Hash, c: seq<seq<Entry>>, m: Values, stored: set<Key>, keys: set<Key>, op: Op, ok: bool)
    requires Models(hash, c, m) && Apart(hash, stored, keys) && m.Keys <= stored && op.key in keys
    requires ok && op.Set? ==> op.key in stored
    ensures Says(hash, c, op, ok) == MapReply(m, op, ok)
    ensures Models(hash, Turn(hash, c, op, ok), MapTurn(m, op, ok)) && MapTurn(m, op, ok).Keys <= stored
  {
    ApartClear(hash, c, m, stored, keys, op.key, op.over);
    match op
    case Set(key, val, over, _) => SetModels(hash, c, m, key, val, over);
    case Get(key, over) => GetIsMap(c[Home(hash, key)], key, over);
    case Del(key, over) =>
      GetIsMap(c[Home(hash, key)], key, over);
      DelModels(hash, c, m, key, over);
  }

  lemma {:induction false} RunModels(hash: Hash, c: seq<seq<Entry>>, m: Values, stored: set<Key>, keys: set<Key>,
                                     inFile: bool, next: nat, ops: seq<Op>, i: nat)
    requires Models(hash, c, m) && Apart(hash, stored, keys) && m.Keys <= stored && i <= |ops|
    requires UsesOnly(ops, keys) && StoresOnly(inFile, next, ops, stored)
    ensures Models(hash, ListedAt(hash, c, inFile, next, ops, i), MapAt(m, inFile, next, ops, i))
    ensures MapAt(m, inFile, next, ops, i).Keys <= stored
  {
    if i > 0 {
      RunModels(hash, c, m, stored, keys, inFile, next, ops, i - 1);
      TurnModels(hash, ListedAt(hash, c, inFile, next, ops, i - 1), MapAt(m, inFile, next, ops, i - 1), stored, keys,
                 ops[i - 1], Accepted(inFile, next, ops, i - 1));
    }
  }

  /** Over keys of which none is a prefix of another in its bucket, every run answers as a map does. */
  lemma PrefixFreeRuns(hash: Hash, c: seq<seq<Entry>>, m: Values, keys: set<Key>, inFile: bool, next: nat, ops: seq<Op>)
    requires Models(hash, c, m) && PrefixFree(hash, keys) && m.Keys <= keys && UsesOnly(ops, keys)
    ensures AsMap(hash, c, m, inFile, next, ops)
  {
    ApartRuns(hash, c, m, keys, keys, inFile, next, ops);
  }

  lemma ApartRuns(hash: Hash, c: seq<seq<Entry>>, m: Values, stored: set<Key>, keys: set<Key>, inFile: bool, next: nat,
                  ops: seq<Op>)
    requires Models(hash, c, m) && Apart(hash, stored, keys) && m.Keys <= stored
    requires UsesOnly(ops, keys) && StoresOnly(inFile, next, ops, stored)
    ensures AsMap(hash, c, m, inFile, next, ops)
  {
    forall i: nat | i < |ops|
      ensures ReplyAt(hash, c, inFile, next, ops, i)
              == MapReply(MapAt(m, inFile, next, ops, i), ops[i], Accepted(inFile, next, ops, i))
    {
      RunModels(hash, c, m, stored, keys, inFile, next, ops, i);
      TurnModels(hash, ListedAt(hash, c, inFile, next, ops, i), MapAt(m, inFile, next, ops, i), stored, keys,
                 ops[i], Accepted(inFile, next, ops, i));
    }
  }

  // ---- exactly then ----

  /** What a new store lists. */
  function Nothing(): (c: seq<seq<Entry>>)
    ensures |c| == NUM_BUCKETS && forall b :: 0 <= b < NUM_BUCKETS ==> c[b] == []
  {
    seq(NUM_BUCKETS, _ => [])
  }

  /** A set of a key and a get of a prefix of it in its bucket: the get answers with the other key's value. */
  lemma PrefixConfuses(hash: Hash, inFile: bool, next: nat, key: Key, longer: Key, val: seq<byte>, over: Over,
                       over': Over)
    requires key <= longer && Home(hash, key) == Home(hash, longer)
    requires inFile ==> next + REC_HDR + |longer| + |val| <= DB_SIZE
    ensures var ops := [Set(longer, val, over, true), Get(key, over')];
            && ReplyAt(hash, Nothing(), inFile, next, ops, 0) == Stored(true)
            && ReplyAt(hash, Nothing(), inFile, next, ops, 1) == Found(Some(val))
  {
    var ops := [Set(longer, val, over, true), Get(key, over')];
    var h, c := Home(hash, key), Nothing();
    assert Accepted(inFile, next, ops, 0);
    assert ListedAt(hash, c, inFile, next, ops, 0) == c;
    var c' := ListedAt(hash, c, inFile, next, ops, 1);
    assert c'[h] == PutIn(c[h], longer, val, over) == [Entry(longer, val)];
    PrefixMatches(key, Entry(longer, val), over');
    FindFirst(c'[h], key, over', 0, 0);
  }

  /** Every run of a new store over the keys answers as a map. */
  ghost predicate EveryRunAsMap(hash: Hash, keys: set<Key>, inFile: bool) {
    forall ops: seq<Op> :: UsesOnly(ops, keys) ==> AsMap(hash, Nothing(), map[], inFile, BASE, ops)
  }

  /** A key that a new store can hold: any on the heap, one that fits the file in the file. */
  predicate Storable(inFile: bool, key: Key) {
    inFile ==> BASE + REC_HDR + |key| <= DB_SIZE
  }

  /** No key that can be stored is a proper prefix of another key of its bucket. */
  ghost predicate StorablePrefixFree(hash: Hash, keys: set<Key>, inFile: bool) {
    forall k, l ::
      k in keys && l in keys && k != l && Home(hash, k) == Home(hash, l) && Storable(inFile, k) ==> !(k <= l)
  }

  /** The exact condition on the keys, for all values and whatever follows the records. */
  lemma PrefixFreeExactly(hash: Hash, keys: set<Key>, inFile: bool)
    ensures EveryRunAsMap(hash, keys, inFile) <==> StorablePrefixFree(hash, keys, inFile)
    ensures (forall k :: k in keys ==> Storable(inFile, k)) ==>
            (StorablePrefixFree(hash, keys, inFile) <==> PrefixFree(hash, keys))
  {
    if StorablePrefixFree(hash, keys, inFile) {
      EmptyModels(hash, Nothing());
      var stored := set k | k in keys && Storable(inFile, k);
      assert Apart(hash, stored, keys);
      forall ops: seq<Op> | UsesOnly(ops, keys) ensures AsMap(hash, Nothing(), map[], inFile, BASE, ops) {
        StoresStorable(inFile, ops, keys, stored);
        ApartRuns(hash, Nothing(), map[], stored, keys, inFile, BASE, ops);
      }
    } else {
      var k, l :| k in keys && l in keys && k != l && Home(hash, k) == Home(hash, l) && Storable(inFile, k) && k <= l;
      if Storable(inFile, l) { NotAsMap(hash, keys, inFile, k, l); } else { LongerNotAsMap(hash, keys, inFile, k, l); }
    }
  }

  lemma {:induction false} EndGrows(inFile: bool, next: nat, ops: seq<Op>, i: nat)
    requires i <= |ops|
    ensures next <= EndAt(inFile, next, ops, i)
  {
    if i > 0 { EndGrows(inFile, next, ops, i - 1); }
  }

  lemma StoresStorable(inFile: bool, ops: seq<Op>, keys: set<Key>, stored: set<Key>)
    requires UsesOnly(ops, keys) && forall k :: k in keys && Storable(inFile, k) ==> k in stored
    ensures StoresOnly(inFile, BASE, ops, stored)
  {
    forall i: nat | i < |ops| && Accepted(inFile, BASE, ops, i) && ops[i].Set? ensures ops[i].key in stored {
      EndGrows(inFile, BASE, ops, i);
    }
  }

  /** A set of a key with no value and a get of a longer key that begins with it, in a store where the bytes after the
      record go on as the longer key does. */
  lemma LongerConfuses(hash: Hash, inFile: bool, next: nat, key: Key, longer: Key, over: Over, over': Over)
    requires key < longer && Home(hash, key) == Home(hash, longer) && over'(longer, key)
    requires inFile ==> next + REC_HDR + |key| <= DB_SIZE
    ensures ReplyAt(hash, Nothing(), inFile, next, [Set(key, [], over, true), Get(longer, over')], 1) == Found(Some([]))
  {
    var ops := [Set(key, [], over, true), Get(longer, over')];
    var h, c, e := Home(hash, key), Nothing(), Entry(key, []);
    assert Accepted(inFile, next, ops, 0);
    assert ListedAt(hash, c, inFile, next, ops, 0) == c;
    var c' := ListedAt(hash, c, inFile, next, ops, 1);
    assert c'[h] == PutIn(c[h], key, [], over) == [e];
    assert key + [] == key;
    FindFirst(c'[h], longer, over', 0, 0);
  }

  lemma LongerNotAsMap(hash: Hash, keys: set<Key>, inFile: bool, k: Key, l: Key)
    requires k in keys && l in keys && k != l && Home(hash, k) == Home(hash, l) && k <= l && Storable(inFile, k)
    ensures !EveryRunAsMap(hash, keys, inFile)
  {
    var over: Over := (_, _) => true;
    var ops := [Set(k, [], over, true), Get(l, over)];
    LongerConfuses(hash, inFile, BASE, k, l, over, over);
    assert UsesOnly(ops, keys);
    assert Accepted(inFile, BASE, ops, 0);
    assert MapAt(map[], inFile, BASE, ops, 1) == map[k := []] by {
      assert MapAt(map[], inFile, BASE, ops, 0) == map[];
    }
    assert !AsMap(hash, Nothing(), map[], inFile, BASE, ops);
  }

  lemma NotAsMap(hash: Hash, keys: set<Key>, inFile: bool, k: Key, l: Key)
    requires k in keys && l in keys && k != l && Home(hash, k) == Home(hash, l) && k <= l
    requires inFile ==> BASE + REC_HDR + |l| <= DB_SIZE
    ensures !EveryRunAsMap(hash, keys, inFile)
  {
    var over: Over := (_, _) => false;
    var ops := [Set(l, [], over, true), Get(k, over)];
    PrefixConfuses(hash, inFile, BASE, k, l, [], over, over);
    assert UsesOnly(ops, keys);
    assert Accepted(inFile, BASE, ops, 0);
    assert MapAt(map[], inFile, BASE, ops, 1) == map[l := []] by {
      assert MapAt(map[], inFile, BASE, ops, 0) == map[];
    }
    assert !AsMap(hash, Nothing(), map[], inFile, BASE, ops);
  }

  // ---- the two backends ----

  /** The same operations, but for what lies past the records and what the allocator does. */
  ghost predicate SameOps(a: seq<Op>, b: seq<Op>) {
    |a| == |b| && forall i :: 0 <= i < |a| ==> SameOp(a[i], b[i])
  }

  predicate SameOp(a: Op, b: Op) {
    match a
    case Set(key, val, _, _) => b.Set? && b.key == key && b.val == val
    case Get(key, _) => b.Get? && b.key == key
    case Del(key, _) => b.Del? && b.key == key
  }

  /** What the first `n` operations cost, if none is refused. */
  function Total(ops: seq<Op>, n: nat): nat
    requires n <= |ops|
  {
    if n == 0 then 0 else Total(ops, n - 1) + Cost(ops[n - 1])
  }

  lemma {:induction false} TotalGrows(ops: seq<Op>, i: nat, n: nat)
    requires i <= n <= |ops|
    ensures Total(ops, i) <= Total(ops, n)
    decreases n - i
  {
    if i < n { TotalGrows(ops, i + 1, n); }
  }

  /** None of the first `n` sets is refused in the file. */
  ghost predicate AllFit(next: nat, ops: seq<Op>, n: nat) {
    n <= |ops| && forall j: nat :: j < n ==> Accepted(true, next, ops, j)
  }

  lemma {:induction false} EndIsTotal(next: nat, ops: seq<Op>, n: nat)
    requires AllFit(next, ops, n)
    ensures EndAt(true, next, ops, n) == next + Total(ops, n)
  {
    if n > 0 {
      EndIsTotal(next, ops, n - 1);
      assert Accepted(true, next, ops, n - 1);
    }
  }

  /** They all fit if and only if their cost fits. */
  lemma {:induction false} FitExactly(next: nat, ops: seq<Op>, n: nat)
    requires next <= DB_SIZE && n <= |ops|
    ensures AllFit(next, ops, n) <==> next + Total(ops, n) <= DB_SIZE
  {
    if n > 0 {
      FitExactly(next, ops, n - 1);
      if AllFit(next, ops, n - 1) {
        EndIsTotal(next, ops, n - 1);
        assert Accepted(true, next, ops, n - 1) <==> next + Total(ops, n) <= DB_SIZE;
      }
    }
  }

  lemma {:induction false} SameMaps(m: Values, heapOps: seq<Op>, fileOps: seq<Op>, next: nat, next': nat, i: nat,
                                    n: nat)
    requires SameOps(heapOps, fileOps) && i <= n && AllFit(next, fileOps, n)
    requires forall j :: 0 <= j < |heapOps| && heapOps[j].Set? ==> heapOps[j].gives
    ensures MapAt(m, false, next', heapOps, i) == MapAt(m, true, next, fileOps, i)
  {
    if i > 0 {
      SameMaps(m, heapOps, fileOps, next, next', i - 1, n);
      assert Accepted(true, next, fileOps, i - 1) && Accepted(false, next', heapOps, i - 1);
      assert SameOp(heapOps[i - 1], fileOps[i - 1]);
    }
  }

  /** The first `n` replies of a heap store and of a file store. */
  ghost predicate Agree(hash: Hash, heap: seq<seq<Entry>>, file: seq<seq<Entry>>, heapOps: seq<Op>, fileOps: seq<Op>,
                        next: nat, next': nat, n: nat)
    requires |heap| == |file| == NUM_BUCKETS && n <= |heapOps| == |fileOps|
  {
    forall j: nat ::
      j < n ==> ReplyAt(hash, heap, false, next', heapOps, j) == ReplyAt(hash, file, true, next, fileOps, j)
  }

  /** The two backends, from stores that stand for one map, with an allocator that gives: they agree on the first `n`
      operations exactly as long as the cost of these still fits the file. */
  lemma BackendsAgree(hash: Hash, keys: set<Key>, m: Values, heap: seq<seq<Entry>>, file: seq<seq<Entry>>,
                      heapOps: seq<Op>, fileOps: seq<Op>, next: nat, next': nat, n: nat)
    requires Models(hash, heap, m) && Models(hash, file, m) && PrefixFree(hash, keys) && m.Keys <= keys
    requires SameOps(heapOps, fileOps) && UsesOnly(heapOps, keys) && UsesOnly(fileOps, keys)
    requires forall j :: 0 <= j < |heapOps| && heapOps[j].Set? ==> heapOps[j].gives
    requires next <= DB_SIZE && n <= |fileOps|
    ensures Agree(hash, heap, file, heapOps, fileOps, next, next', n) <==> next + Total(fileOps, n) <= DB_SIZE
  {
    PrefixFreeRuns(hash, heap, m, keys, false, next', heapOps);
    PrefixFreeRuns(hash, file, m, keys, true, next, fileOps);
    FitExactly(next, fileOps, n);
    forall j: nat | j < n && !Accepted(true, next, fileOps, j)
      ensures ReplyAt(hash, heap, false, next', heapOps, j) != ReplyAt(hash, file, true, next, fileOps, j)
    {
      assert SameOp(heapOps[j], fileOps[j]);
    }
    if AllFit(next, fileOps, n) {
      forall j: nat | j < n
        ensures ReplyAt(hash, heap, false, next', heapOps, j) == ReplyAt(hash, file, true, next, fileOps, j)
      {
        SameMaps(m, heapOps, fileOps, next, next', j, n);
        assert Accepted(true, next, fileOps, j) && Accepted(false, next', heapOps, j) && SameOp(heapOps[j], fileOps[j]);
      }
    }
  }
}
