/** The store's chained buckets over a memory of records: what a chain is, and what unlinking, replacing and
    pushing a record do to all the chains at once. */
module Chains {
  import opened Bytes

  type Key = seq<byte>
  type Hash = Key -> nat

  /** A link is a record's address; zero ends a chain. */
  type Link = nat

  const NUM_BUCKETS := 15013
  const REC_HDR := 32

  datatype Rec = Rec(next: Link, deleted: bool, key: Key, val: seq<byte>)

  type Memory = map<Link, Rec>

  function Size(r: Rec): nat { REC_HDR + |r.key| + |r.val| }

  function Home(hash: Hash, key: Key): (b: nat)
    ensures b < NUM_BUCKETS
  {
    hash(key) % NUM_BUCKETS
  }

  // ---- one chain ----

  function At(c: seq<Link>, i: nat): Link {
    if i < |c| then c[i] else 0
  }

  /** Element `i` of the chain `c` of bucket `b`: a live record of that bucket that links to element `i + 1`. */
  ghost predicate Element(hash: Hash, mem: Memory, c: seq<Link>, b: nat, i: nat)
    requires i < |c|
  {
    && RunsAt(mem, c, i)
    && !mem[c[i]].deleted && Home(hash, mem[c[i]].key) == b
  }

  /** Element `i` of a path of links: a record that links to element `i + 1`. */
  ghost predicate RunsAt(mem: Memory, c: seq<Link>, i: nat)
    requires i < |c|
  {
    c[i] != 0 && c[i] in mem && mem[c[i]].next == At(c, i + 1)
  }

  /** The links from `head` are `c`, and end. */
  ghost predicate Runs(mem: Memory, head: Link, c: seq<Link>) {
    head == At(c, 0) && forall i: nat :: i < |c| ==> RunsAt(mem, c, i)
  }

  ghost predicate Distinct(c: seq<Link>) {
    forall i, j :: 0 <= i < j < |c| ==> c[i] != c[j]
  }

  ghost predicate Chain(hash: Hash, mem: Memory, head: Link, c: seq<Link>, b: nat) {
    head == At(c, 0) && Distinct(c) && forall i: nat :: i < |c| ==> Element(hash, mem, c, b, i)
  }

  // ---- all of them ----

  /** Every bucket heads its chain, and every live record is in the chain of its key's bucket. */
  ghost predicate Chained(hash: Hash, heads: seq<Link>, mem: Memory, chains: seq<seq<Link>>) {
    && |heads| == |chains| == NUM_BUCKETS
    && (forall b: nat :: b < NUM_BUCKETS ==> Chain(hash, mem, heads[b], chains[b], b))
    && (forall l :: l in mem && !mem[l].deleted ==> l in chains[Home(hash, mem[l].key)])
  }

  /** Where a link is kept: a bucket, or a record's `next`. */
  datatype Slot = Bucket(b: nat) | NextOf(l: Link)

  /** The slot that holds element `i` of bucket `b`'s chain. */
  function SlotOf(c: seq<Link>, b: nat, i: nat): Slot
    requires i <= |c|
  {
    if i == 0 then Bucket(b) else NextOf(c[i - 1])
  }

  function Heads(heads: seq<Link>, s: Slot, l: Link): (r: seq<Link>)
    ensures |r| == |heads|
  {
    if s.Bucket? && s.b < |heads| then heads[s.b := l] else heads
  }

  function Linked(mem: Memory, s: Slot, l: Link): Memory {
    if s.NextOf? && s.l in mem then mem[s.l := mem[s.l].(next := l)] else mem
  }

  /** The record is flagged in file mode, freed otherwise. */
  function Retired(mem: Memory, l: Link, inFile: bool): Memory
    requires l in mem
  {
    if inFile then mem[l := mem[l].(deleted := true)] else mem - {l}
  }

  function Cut<T>(c: seq<T>, i: nat): (r: seq<T>)
    requires i < |c|
    ensures |r| == |c| - 1
    ensures forall j :: 0 <= j < |r| ==> r[j] == c[if j < i then j else j + 1]
  {
    c[..i] + c[i + 1..]
  }

  // ---- the three changes ----

  function PushMem(heads: seq<Link>, mem: Memory, b: nat, l: Link, key: Key, val: seq<byte>): Memory
    requires b < |heads|
  {
    mem[l := Rec(heads[b], false, key, val)]
  }

  function SwapMem(mem: Memory, c: seq<Link>, b: nat, i: nat, l: Link, key: Key, val: seq<byte>, inFile: bool): Memory
    requires i < |c| && c[i] in mem && l != c[i]
  {
    Retired(Linked(mem[l := Rec(mem[c[i]].next, false, key, val)], SlotOf(c, b, i), l), c[i], inFile)
  }

  function CutMem(mem: Memory, c: seq<Link>, b: nat, i: nat, inFile: bool): Memory
    requires i < |c| && c[i] in mem
  {
    Retired(Linked(mem, SlotOf(c, b, i), mem[c[i]].next), c[i], inFile)
  }

  /** A memory that keeps every record of a chain keeps the chain. */
  lemma ChainFrame(hash: Hash, mem: Memory, mem': Memory, head: Link, c: seq<Link>, b: nat)
    requires Chain(hash, mem, head, c, b)
    requires forall i :: 0 <= i < |c| ==> c[i] in mem && c[i] in mem' && mem'[c[i]] == mem[c[i]]
    ensures Chain(hash, mem', head, c, b)
  {
    forall i: nat | i < |c| ensures Element(hash, mem', c, b, i) {
      assert Element(hash, mem, c, b, i);
    }
  }

  /** Nothing outside bucket `b` differs. */
  ghost predicate Elsewhere(hash: Hash, mem: Memory, mem': Memory, b: nat) {
    && (forall l :: l in mem && Home(hash, mem[l].key) != b ==> l in mem' && mem'[l] == mem[l])
    && (forall l :: l in mem' && Home(hash, mem'[l].key) != b ==> l in mem && mem'[l] == mem[l])
  }

  /** So a change of one bucket is a matter of that bucket's chain. */
  lemma Rechained(hash: Hash, heads: seq<Link>, mem: Memory, chains: seq<seq<Link>>, b: nat,
                  head: Link, mem': Memory, c: seq<Link>)
    requires Chained(hash, heads, mem, chains) && b < NUM_BUCKETS && Elsewhere(hash, mem, mem', b)
    requires Chain(hash, mem', head, c, b)
    requires forall l :: l in mem' && !mem'[l].deleted && Home(hash, mem'[l].key) == b ==> l in c
    ensures Chained(hash, heads[b := head], mem', chains[b := c])
  {
    var heads', chains': seq<seq<Link>> := heads[b := head], chains[b := c];
    forall x: nat | x < NUM_BUCKETS ensures Chain(hash, mem', heads'[x], chains'[x], x) {
      if x != b {
        assert Chain(hash, mem, heads[x], chains[x], x);
        forall i: nat | i < |chains[x]|
          ensures chains[x][i] in mem && chains[x][i] in mem' && mem'[chains[x][i]] == mem[chains[x][i]]
        {
          assert Element(hash, mem, chains[x], x, i);
        }
        ChainFrame(hash, mem, mem', heads[x], chains[x], x);
      }
    }
  }

  /** A new record at the head of its bucket. */
  lemma Pushed(hash: Hash, heads: seq<Link>, mem: Memory, chains: seq<seq<Link>>, l: Link, key: Key, val: seq<byte>)
    requires Chained(hash, heads, mem, chains) && l != 0 && l !in mem
    ensures var b := Home(hash, key);
            && Elsewhere(hash, mem, PushMem(heads, mem, b, l, key, val), b)
            && Chained(hash, heads[b := l], PushMem(heads, mem, b, l, key, val), chains[b := [l] + chains[b]])
  {
    var b := Home(hash, key);
    var c, mem' := chains[b], PushMem(heads, mem, b, l, key, val);
    var c' := [l] + c;
    assert Chain(hash, mem, heads[b], c, b);
    forall i: nat | i < |c'| ensures Element(hash, mem', c', b, i) {
      if i > 0 { assert Element(hash, mem, c, b, i - 1); }
    }
    assert Distinct(c') by {
      forall i: nat | i < |c| ensures c[i] != l { assert Element(hash, mem, c, b, i); }
    }
    Rechained(hash, heads, mem, chains, b, l, mem', c');
  }

  /** What replacing element `i` of `c` by a record at `l` does to each address. */
  ghost predicate Swaps(mem: Memory, mem': Memory, c: seq<Link>, i: nat, l: Link, key: Key, val: seq<byte>,
                        inFile: bool)
    requires i < |c| && c[i] in mem
  {
    && l in mem' && mem'[l] == Rec(mem[c[i]].next, false, key, val)
    && (c[i] in mem' <==> inFile) && (inFile ==> mem'[c[i]] == mem[c[i]].(deleted := true))
    && (i > 0 ==> c[i - 1] in mem && c[i - 1] in mem' && mem'[c[i - 1]] == mem[c[i - 1]].(next := l))
    && (forall x :: x in mem && x != c[i] && (i > 0 ==> x != c[i - 1]) ==> x in mem' && mem'[x] == mem[x])
    && (forall x :: x in mem' && x != l ==> x in mem)
  }

  lemma SwapMemSwaps(mem: Memory, c: seq<Link>, b: nat, i: nat, l: Link, key: Key, val: seq<byte>, inFile: bool)
    requires i < |c| && c[i] in mem && l !in mem && (i > 0 ==> c[i - 1] in mem && c[i - 1] != c[i])
    ensures Swaps(mem, SwapMem(mem, c, b, i, l, key, val, inFile), c, i, l, key, val, inFile)
  {
  }

  lemma SwappedChain(hash: Hash, mem: Memory, mem': Memory, head: Link, c: seq<Link>, i: nat,
                     l: Link, key: Key, val: seq<byte>, inFile: bool)
    requires i < |c| && l != 0 && l !in mem && Chain(hash, mem, head, c, Home(hash, key)) && c[i] in mem
    requires Swaps(mem, mem', c, i, l, key, val, inFile)
    ensures Chain(hash, mem', if i == 0 then l else head, c[i := l], Home(hash, key))
  {
    var b, c': seq<Link> := Home(hash, key), c[i := l];
    assert Element(hash, mem, c, b, i);
    forall j: nat | j < |c'| ensures Element(hash, mem', c', b, j) && c[j] != l {
      assert Element(hash, mem, c, b, j);
    }
  }

  lemma SwappedLive(hash: Hash, mem: Memory, mem': Memory, head: Link, c: seq<Link>, i: nat,
                    l: Link, key: Key, val: seq<byte>, inFile: bool, x: Link)
    requires i < |c| && l !in mem && Chain(hash, mem, head, c, Home(hash, key)) && c[i] in mem
    requires Swaps(mem, mem', c, i, l, key, val, inFile)
    requires x in mem' && !mem'[x].deleted && Home(hash, mem'[x].key) == Home(hash, key)
    requires x in mem && !mem[x].deleted ==> Home(hash, mem[x].key) == Home(hash, key) ==> x in c
    ensures x in c[i := l]
  {
    var c': seq<Link> := c[i := l];
    if x == l {
      assert c'[i] == l;
    } else {
      var j :| 0 <= j < |c| && c[j] == x;
      assert c'[j] == x;
    }
  }

  lemma SwappedElsewhere(hash: Hash, mem: Memory, mem': Memory, head: Link, c: seq<Link>, i: nat,
                         l: Link, key: Key, val: seq<byte>, inFile: bool)
    requires i < |c| && l !in mem && Chain(hash, mem, head, c, Home(hash, key)) && c[i] in mem
    requires Swaps(mem, mem', c, i, l, key, val, inFile)
    ensures Elsewhere(hash, mem, mem', Home(hash, key))
  {
    var b := Home(hash, key);
    assert Element(hash, mem, c, b, i);
    if i > 0 { assert Element(hash, mem, c, b, i - 1); }
  }

  /** A new record in the place of element `i` of its bucket. */
  lemma Swapped(hash: Hash, heads: seq<Link>, mem: Memory, chains: seq<seq<Link>>, i: nat,
                l: Link, key: Key, val: seq<byte>, inFile: bool)
    requires Chained(hash, heads, mem, chains) && l != 0 && l !in mem && i < |chains[Home(hash, key)]|
    ensures var b := Home(hash, key); var c: seq<Link> := chains[b];
            && c[i] in mem && Elsewhere(hash, mem, SwapMem(mem, c, b, i, l, key, val, inFile), b)
            && Chained(hash, Heads(heads, SlotOf(c, b, i), l), SwapMem(mem, c, b, i, l, key, val, inFile),
                       chains[b := c[i := l]])
  {
    var b := Home(hash, key);
    var c: seq<Link> := chains[b];
    assert Chain(hash, mem, heads[b], c, b) && Element(hash, mem, c, b, i);
    if i > 0 { assert Element(hash, mem, c, b, i - 1); }
    var mem' := SwapMem(mem, c, b, i, l, key, val, inFile);
    SwapMemSwaps(mem, c, b, i, l, key, val, inFile);
    SwappedChain(hash, mem, mem', heads[b], c, i, l, key, val, inFile);
    SwappedElsewhere(hash, mem, mem', heads[b], c, i, l, key, val, inFile);
    forall x | x in mem' && !mem'[x].deleted && Home(hash, mem'[x].key) == b ensures x in c[i := l] {
      SwappedLive(hash, mem, mem', heads[b], c, i, l, key, val, inFile, x);
    }
    var head := if i == 0 then l else heads[b];
    assert Heads(heads, SlotOf(c, b, i), l) == heads[b := head];
    Rechained(hash, heads, mem, chains, b, head, mem', c[i := l]);
  }

  /** Element `i` of a bucket taken out. */
  lemma Unlinked(hash: Hash, heads: seq<Link>, mem: Memory, chains: seq<seq<Link>>, b: nat, i: nat, inFile: bool)
    requires Chained(hash, heads, mem, chains) && b < NUM_BUCKETS && i < |chains[b]|
    ensures var c: seq<Link> := chains[b];
            && c[i] in mem && Elsewhere(hash, mem, CutMem(mem, c, b, i, inFile), b)
            && Chained(hash, Heads(heads, SlotOf(c, b, i), mem[c[i]].next), CutMem(mem, c, b, i, inFile),
                       chains[b := Cut(c, i)])
  {
    var c: seq<Link> := chains[b];
    assert Chain(hash, mem, heads[b], c, b) && Element(hash, mem, c, b, i);
    var c', mem' := Cut(c, i), CutMem(mem, c, b, i, inFile);
    if i > 0 { assert Element(hash, mem, c, b, i - 1); }
    forall j: nat | j < |c'| ensures Element(hash, mem', c', b, j) {
      assert Element(hash, mem, c, b, if j < i then j else j + 1);
    }
    var heads' := Heads(heads, SlotOf(c, b, i), mem[c[i]].next);
    assert heads' == heads[b := heads'[b]];
    Rechained(hash, heads, mem, chains, b, heads'[b], mem', c');
  }
}
