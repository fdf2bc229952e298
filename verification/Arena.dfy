/** The file's arena: records allocated one after the other, never moved, flagged when deleted. */
module Arena {
  import opened Bytes
  import opened Chains

  const DB_HDR := 32
  const BASE: nat := DB_HDR + NUM_BUCKETS * 8
  const DB_SIZE: nat := BASE + 10000 * 256

  /** Records are pairwise disjoint and lie between the bucket table and `next`, which lies within the file. */
  ghost predicate Packed(mem: Memory, next: nat) {
    && BASE <= next <= DB_SIZE
    && (forall l :: l in mem ==> BASE <= l && l + Size(mem[l]) <= next)
    && (forall l, m :: l in mem && m in mem && l < m ==> l + Size(mem[l]) <= m)
  }

  ghost function Live(mem: Memory): set<Link> {
    set l | l in mem && !mem[l].deleted
  }

  /** The header counts the records made and the records deleted. */
  ghost predicate Counted(mem: Memory, numRec: nat, numDel: nat) {
    numRec == |mem| && numRec == numDel + |Live(mem)|
  }

  /** A new record, where the arena ends. */
  lemma AddPacked(mem: Memory, next: nat, r: Rec)
    requires Packed(mem, next) && next + Size(r) <= DB_SIZE
    ensures next !in mem && Packed(mem[next := r], next + Size(r))
  {
  }

  lemma AddCounted(mem: Memory, numRec: nat, numDel: nat, l: Link, r: Rec)
    requires Counted(mem, numRec, numDel) && l !in mem && !r.deleted
    ensures Counted(mem[l := r], numRec + 1, numDel)
  {
    assert mem[l := r].Keys == mem.Keys + {l};
    assert Live(mem[l := r]) == Live(mem) + {l};
  }

  /** A changed link or flag: nothing moves. */
  lemma SetPacked(mem: Memory, next: nat, l: Link, r: Rec)
    requires Packed(mem, next) && l in mem && Size(r) == Size(mem[l])
    ensures Packed(mem[l := r], next)
  {
    var mem' := mem[l := r];
    assert forall x :: x in mem' ==> x in mem && Size(mem'[x]) == Size(mem[x]);
  }

  lemma SetCounted(mem: Memory, numRec: nat, numDel: nat, l: Link, r: Rec)
    requires Counted(mem, numRec, numDel) && l in mem && !mem[l].deleted
    ensures Counted(mem[l := r], numRec, if r.deleted then numDel + 1 else numDel)
  {
    var mem' := mem[l := r];
    assert mem'.Keys == mem.Keys;
    assert Live(mem') == if r.deleted then Live(mem) - {l} else Live(mem);
  }

  /** Some bucket's chain has the record. */
  ghost predicate Reachable(chains: seq<seq<Link>>, l: Link) {
    exists b: nat, i: nat :: b < |chains| && i < |chains[b]| && chains[b][i] == l
  }

  /** A record is reachable exactly when its delete flag is clear, so the header's difference counts the
      reachable records. */
  lemma ReachableIsLive(hash: Hash, heads: seq<Link>, mem: Memory, chains: seq<seq<Link>>, l: Link)
    requires Chained(hash, heads, mem, chains)
    ensures Reachable(chains, l) <==> l in Live(mem)
  {
    if Reachable(chains, l) {
      var b: nat, i: nat :| b < |chains| && i < |chains[b]| && chains[b][i] == l;
      assert Chain(hash, mem, heads[b], chains[b], b) && Element(hash, mem, chains[b], b, i);
    }
    if l in Live(mem) {
      var b := Home(hash, mem[l].key);
      var i: nat :| i < |chains[b]| && chains[b][i] == l;
    }
  }
}
