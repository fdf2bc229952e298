/** The key/value store: chained buckets over heap records or over the file's arena. */
module Store {
  import opened Bytes
  import opened Chains
  import opened Entries
  import opened Arena

  const DB_MAGIC := 0x4D594442

  /** A chain as the list of its keys and values. */
  ghost function Listed(mem: Memory, c: seq<Link>): (es: seq<Entry>)
    ensures |es| == |c|
    ensures forall i :: 0 <= i < |c| && c[i] in mem ==> es[i] == Entry(mem[c[i]].key, mem[c[i]].val)
  {
    seq(|c|, i requires 0 <= i < |c| => if c[i] in mem then Entry(mem[c[i]].key, mem[c[i]].val) else Entry([], []))
  }

  /** The other buckets list what they did. */
  lemma ListedElsewhere(hash: Hash, heads: seq<Link>, mem: Memory, chains: seq<seq<Link>>, mem': Memory, b: nat, x: nat)
    requires Chained(hash, heads, mem, chains) && Elsewhere(hash, mem, mem', b) && x < NUM_BUCKETS && x != b
    ensures Listed(mem', chains[x]) == Listed(mem, chains[x])
  {
    assert Chain(hash, mem, heads[x], chains[x], x);
    forall i: nat | i < |chains[x]| ensures Listed(mem', chains[x])[i] == Listed(mem, chains[x])[i] {
      assert Element(hash, mem, chains[x], x, i);
    }
  }

  /** What every bucket lists. */
  ghost function Listing(mem: Memory, chains: seq<seq<Link>>): (r: seq<seq<Entry>>)
    ensures |r| == |chains| && forall b :: 0 <= b < |chains| ==> r[b] == Listed(mem, chains[b])
  {
    seq(|chains|, b requires 0 <= b < |chains| => Listed(mem, chains[b]))
  }

  lemma Relisted(hash: Hash, heads: seq<Link>, mem: Memory, chains: seq<seq<Link>>, mem': Memory, b: nat, c: seq<Link>)
    requires Chained(hash, heads, mem, chains) && Elsewhere(hash, mem, mem', b) && b < NUM_BUCKETS
    ensures Listing(mem', chains[b := c]) == Listing(mem, chains)[b := Listed(mem', c)]
  {
    var r, want := Listing(mem', chains[b := c]), Listing(mem, chains)[b := Listed(mem', c)];
    forall x: nat | x < NUM_BUCKETS ensures r[x] == want[x] {
      if x != b { ListedElsewhere(hash, heads, mem, chains, mem', b, x); }
    }
  }

  lemma ListedPush(hash: Hash, heads: seq<Link>, mem: Memory, c: seq<Link>, b: nat, l: Link, key: Key, val: seq<byte>)
    requires b < |heads| && Chain(hash, mem, heads[b], c, b) && l !in mem
    ensures Listed(PushMem(heads, mem, b, l, key, val), [l] + c) == [Entry(key, val)] + Listed(mem, c)
  {
    var mem', c' := PushMem(heads, mem, b, l, key, val), [l] + c;
    var es, want := Listed(mem', c'), [Entry(key, val)] + Listed(mem, c);
    forall i: nat | i < |c'| ensures es[i] == want[i] {
      if i > 0 { assert Element(hash, mem, c, b, i - 1) && c'[i] == c[i - 1]; }
    }
  }

  lemma ListedSwap(hash: Hash, mem: Memory, head: Link, c: seq<Link>, b: nat, i: nat,
                   l: Link, key: Key, val: seq<byte>, inFile: bool)
    requires Chain(hash, mem, head, c, b) && i < |c| && c[i] in mem && l !in mem
    ensures Listed(SwapMem(mem, c, b, i, l, key, val, inFile), c[i := l]) == Listed(mem, c)[i := Entry(key, val)]
  {
    var mem', c': seq<Link> := SwapMem(mem, c, b, i, l, key, val, inFile), c[i := l];
    if i > 0 { assert Element(hash, mem, c, b, i - 1); }
    SwapMemSwaps(mem, c, b, i, l, key, val, inFile);
    forall j: nat | j < |c| ensures Listed(mem', c')[j] == Listed(mem, c)[i := Entry(key, val)][j] {
      assert Element(hash, mem, c, b, j);
    }
  }

  lemma ListedCut(hash: Hash, mem: Memory, head: Link, c: seq<Link>, b: nat, i: nat, inFile: bool)
    requires Chain(hash, mem, head, c, b) && i < |c| && c[i] in mem
    ensures Listed(CutMem(mem, c, b, i, inFile), Cut(c, i)) == Cut(Listed(mem, c), i)
  {
    var mem', c' := CutMem(mem, c, b, i, inFile), Cut(c, i);
    forall j: nat | j < |c'| ensures Listed(mem', c')[j] == Cut(Listed(mem, c), i)[j] {
      assert Element(hash, mem, c, b, if j < i then j else j + 1);
    }
  }

  // The three changes, whole.

  lemma PushAll(hash: Hash, heads: seq<Link>, mem: Memory, chains: seq<seq<Link>>, l: Link, key: Key, val: seq<byte>)
    requires Chained(hash, heads, mem, chains) && l != 0 && l !in mem
    ensures var b := Home(hash, key);
            var mem', chains' := PushMem(heads, mem, b, l, key, val), chains[b := [l] + chains[b]];
            && Chained(hash, heads[b := l], mem', chains')
            && Listing(mem', chains') == Listing(mem, chains)[b := [Entry(key, val)] + Listing(mem, chains)[b]]
  {
    var b := Home(hash, key);
    var mem' := PushMem(heads, mem, b, l, key, val);
    Pushed(hash, heads, mem, chains, l, key, val);
    assert Chain(hash, mem, heads[b], chains[b], b);
    ListedPush(hash, heads, mem, chains[b], b, l, key, val);
    Relisted(hash, heads, mem, chains, mem', b, [l] + chains[b]);
  }

  lemma SwapAll(hash: Hash, heads: seq<Link>, mem: Memory, chains: seq<seq<Link>>, i: nat,
                l: Link, key: Key, val: seq<byte>, inFile: bool)
    requires Chained(hash, heads, mem, chains) && l != 0 && l !in mem && i < |chains[Home(hash, key)]|
    ensures var b := Home(hash, key); var c: seq<Link> := chains[b];
            c[i] in mem &&
            var mem', chains': seq<seq<Link>> := SwapMem(mem, c, b, i, l, key, val, inFile), chains[b := c[i := l]];
            && Chained(hash, Heads(heads, SlotOf(c, b, i), l), mem', chains')
            && Listing(mem', chains') == Listing(mem, chains)[b := Listing(mem, chains)[b][i := Entry(key, val)]]
  {
    var b := Home(hash, key);
    var c: seq<Link> := chains[b];
    Swapped(hash, heads, mem, chains, i, l, key, val, inFile);
    assert Chain(hash, mem, heads[b], c, b);
    ListedSwap(hash, mem, heads[b], c, b, i, l, key, val, inFile);
    Relisted(hash, heads, mem, chains, SwapMem(mem, c, b, i, l, key, val, inFile), b, c[i := l]);
  }

  lemma CutAll(hash: Hash, heads: seq<Link>, mem: Memory, chains: seq<seq<Link>>, b: nat, i: nat, inFile: bool)
    requires Chained(hash, heads, mem, chains) && b < NUM_BUCKETS && i < |chains[b]|
    ensures var c: seq<Link> := chains[b];
            c[i] in mem &&
            var mem', chains' := CutMem(mem, c, b, i, inFile), chains[b := Cut(c, i)];
            && Chained(hash, Heads(heads, SlotOf(c, b, i), mem[c[i]].next), mem', chains')
            && Listing(mem', chains') == Listing(mem, chains)[b := Cut(Listing(mem, chains)[b], i)]
  {
    var c: seq<Link> := chains[b];
    Unlinked(hash, heads, mem, chains, b, i, inFile);
    assert Chain(hash, mem, heads[b], c, b);
    ListedCut(hash, mem, heads[b], c, b, i, inFile);
    Relisted(hash, heads, mem, chains, CutMem(mem, c, b, i, inFile), b, Cut(c, i));
  }

  /** A walk: element `i`, and the elements next to it, of a chain. */
  lemma Walk(hash: Hash, heads: seq<Link>, mem: Memory, chains: seq<seq<Link>>, b: nat, i: nat)
    requires Chained(hash, heads, mem, chains) && b < NUM_BUCKETS && i <= |chains[b]|
    ensures i == 0 ==> heads[b] == At(chains[b], 0)
    ensures i < |chains[b]| ==> Element(hash, mem, chains[b], b, i)
    ensures i > 0 ==> Element(hash, mem, chains[b], b, i - 1) && (i < |chains[b]| ==> chains[b][i - 1] != chains[b][i])
    ensures At(chains[b], i) == 0 <==> i == |chains[b]|
  {
    assert Chain(hash, mem, heads[b], chains[b], b);
    assert i < |chains[b]| ==> Element(hash, mem, chains[b], b, i);
  }

  /** The same, for the chain `c` and the entries `es` of a bucket. */
  lemma Visit(hash: Hash, heads: seq<Link>, mem: Memory, chains: seq<seq<Link>>, b: nat, c: seq<Link>,
              es: seq<Entry>, i: nat)
    requires Chained(hash, heads, mem, chains) && b < NUM_BUCKETS && i <= |c|
    requires c == chains[b] && es == Listing(mem, chains)[b]
    ensures |es| == |c| && (i == 0 ==> heads[b] == At(c, i)) && (At(c, i) == 0 <==> i == |c|)
    ensures i < |c| ==>
            && c[i] in mem && mem[c[i]].next == At(c, i + 1)
            && es[i] == Entry(mem[c[i]].key, mem[c[i]].val)
  {
    Walk(hash, heads, mem, chains, b, i);
  }

  lemma NoRecords(hash: Hash, heads: seq<Link>, mem: Memory, chains: seq<seq<Link>>)
    requires Chained(hash, heads, mem, chains) && (forall b :: 0 <= b < NUM_BUCKETS ==> chains[b] == [])
    requires forall l :: l in mem ==> !mem[l].deleted
    ensures mem == map[]
  {
  }

  lemma Overwritten(mem: Memory, l: Link, r: Rec, r': Rec)
    ensures mem[l := r][l := r'] == mem[l := r']
  {
  }

  class Store {
    const hash: Hash
    const inFile: bool
    const magic: nat
    const version: nat
    const buckets: array<Link>
    var mem: Memory
    var numRec: nat
    var numDel: nat
    var nextOffset: nat
    ghost var chains: seq<seq<Link>>

    /** The records that have an owner: in the file they fill the arena, on the heap none is flagged. */
    ghost predicate Owned()
      reads this
    {
      if inFile then Packed(mem, nextOffset) && Counted(mem, numRec, numDel)
      else forall l :: l in mem ==> !mem[l].deleted
    }

    ghost predicate Valid()
      reads this, buckets
    {
      && buckets.Length == NUM_BUCKETS && Chained(hash, buckets[..], mem, chains) && Owned()
      && (inFile ==> magic == DB_MAGIC && version == 1)
    }

    /** What the buckets list. */
    ghost function Contents(): seq<seq<Entry>>
      reads this
    {
      Listing(mem, chains)
    }

    /** Empty, on the heap or in a new file. */
    constructor (hash: Hash, inFile: bool)
      ensures Valid() && fresh(buckets) && this.hash == hash && this.inFile == inFile
      ensures forall b: nat :: b < NUM_BUCKETS ==> Contents()[b] == []
      ensures nextOffset == BASE
    {
      this.hash, this.inFile, magic, version := hash, inFile, DB_MAGIC, 1;
      buckets := new Link[NUM_BUCKETS](_ => 0);
      mem, numRec, numDel, nextOffset := map[], 0, 0, BASE;
      chains := seq(NUM_BUCKETS, _ => []);
    }

    /** Where the arena ends after a set. */
    function NextOffset(next: nat, key: Key, val: seq<byte>, ok: bool): nat {
      if inFile && ok then next + REC_HDR + |key| + |val| else next
    }

    /** `create_rec`: zero if there is no room. `alloc` is the allocator's answer. */
    method CreateRec(key: Key, val: seq<byte>, alloc: Option<Link>) returns (l: Link)
      requires Owned() && (!inFile && alloc.Some? ==> alloc.value != 0 && alloc.value !in mem)
      modifies this`mem, this`numRec, this`nextOffset
      ensures Owned()
      ensures l == 0 <==> if inFile then old(nextOffset) + REC_HDR + |key| + |val| > DB_SIZE else alloc.None?
      ensures l == 0 ==> mem == old(mem) && numRec == old(numRec)
      ensures nextOffset == NextOffset(old(nextOffset), key, val, l != 0)
      ensures l != 0 ==> l !in old(mem) && mem == old(mem)[l := Rec(0, false, key, val)]
    {
      var size := REC_HDR + |key| + |val|;
      if inFile {
        if nextOffset + size > DB_SIZE { return 0; }
        AddPacked(mem, nextOffset, Rec(0, false, key, val));
        AddCounted(mem, numRec, numDel, nextOffset, Rec(0, false, key, val));
        l := nextOffset;
        nextOffset, numRec := nextOffset + size, numRec + 1;
      } else {
        if alloc.None? { return 0; }
        l := alloc.value;
      }
      mem := mem[l := Rec(0, false, key, val)];
    }

    /** `del_rec`. */
    method DelRec(l: Link)
      requires Owned() && l in mem && !mem[l].deleted
      modifies this`mem, this`numDel
      ensures Owned() && mem == Retired(old(mem), l, inFile)
    {
      if inFile {
        SetPacked(mem, nextOffset, l, mem[l].(deleted := true));
        SetCounted(mem, numRec, numDel, l, mem[l].(deleted := true));
        mem, numDel := mem[l := mem[l].(deleted := true)], numDel + 1;
      } else {
        mem := mem - {l};
      }
    }

    /** `rec->next = to`. */
    method SetNext(l: Link, to: Link)
      requires Owned() && l in mem && !mem[l].deleted
      modifies this`mem
      ensures Owned() && mem == old(mem)[l := old(mem)[l].(next := to)]
    {
      if inFile {
        SetPacked(mem, nextOffset, l, mem[l].(next := to));
        SetCounted(mem, numRec, numDel, l, mem[l].(next := to));
      }
      mem := mem[l := mem[l].(next := to)];
    }

    /** `*pp`. */
    function Load(pp: Slot): Link
      requires if pp.Bucket? then pp.b < buckets.Length else pp.l in mem
      reads this, buckets
    {
      if pp.Bucket? then buckets[pp.b] else mem[pp.l].next
    }

    /** `*pp = to`. */
    method Poke(pp: Slot, to: Link)
      requires Owned() && if pp.Bucket? then pp.b < buckets.Length else pp.l in mem && !mem[pp.l].deleted
      modifies this`mem, buckets
      ensures Owned() && mem == Linked(old(mem), pp, to) && buckets[..] == Heads(old(buckets[..]), pp, to)
    {
      match pp
      case Bucket(b) =>
        buckets[b] := to;
      case NextOf(l) =>
        SetNext(l, to);
    }

    /** `hash_search`: the value of the first record that matches. */
    method HashSearch(key: Key, over: Over) returns (val: Option<seq<byte>>)
      requires Valid()
      ensures val == GetIn(Contents()[Home(hash, key)], key, over)
    {
      var idx := Home(hash, key);
      var link := buckets[idx];
      ghost var i: nat, c, es := 0, chains[idx], Contents()[idx];
      Visit(hash, buckets[..], mem, chains, idx, c, es, i);
      while link != 0
        invariant Unmatched(es, i, key, over) && link == At(c, i)
        decreases |c| - i
      {
        Visit(hash, buckets[..], mem, chains, idx, c, es, i);
        var rec := mem[link];
        if Matches(key, Entry(rec.key, rec.val), over) {
          FindFirst(es, key, over, 0, i);
          return Some(rec.val);
        }
        link, i := rec.next, i + 1;
      }
      Visit(hash, buckets[..], mem, chains, idx, c, es, i);
      FindFirst(es, key, over, 0, i);
      return None;
    }

    /** Is there room for a record? */
    predicate Room(next: nat, key: Key, val: seq<byte>, alloc: Option<Link>) {
      if inFile then next + REC_HDR + |key| + |val| <= DB_SIZE else alloc.Some?
    }

    /** `pp` holds element `i` of `c`, a live record. */
    ghost predicate Holds(pp: Slot, c: seq<Link>, b: nat, i: nat)
      reads this, buckets
    {
      && i < |c| && pp == SlotOf(c, b, i) && b < buckets.Length
      && c[i] in mem && !mem[c[i]].deleted
      && (i > 0 ==> c[i - 1] in mem && !mem[c[i - 1]].deleted && c[i - 1] != c[i])
      && Load(pp) == c[i]
    }

    /** A new record that links where the record at `cur` does. */
    method Renew(cur: Link, key: Key, val: seq<byte>, alloc: Option<Link>) returns (l: Link)
      requires Owned() && cur in mem && (!inFile && alloc.Some? ==> alloc.value != 0 && alloc.value !in mem)
      modifies this`mem, this`numRec, this`nextOffset
      ensures Owned() && (l == 0 <==> !Room(old(nextOffset), key, val, alloc))
      ensures nextOffset == NextOffset(old(nextOffset), key, val, l != 0)
      ensures l == 0 ==> mem == old(mem)
      ensures l != 0 ==> l !in old(mem) && mem == old(mem)[l := Rec(old(mem)[cur].next, false, key, val)]
    {
      var rec := mem[cur];
      l := CreateRec(key, val, alloc);
      if l != 0 {
        Overwritten(old(mem), l, Rec(0, false, key, val), Rec(rec.next, false, key, val));
        SetNext(l, rec.next);
      }
    }

    /** `*pp = to`, and the record at `cur` retired. */
    method Relink(pp: Slot, to: Link, cur: Link)
      requires Owned() && cur in mem && !mem[cur].deleted
      requires if pp.Bucket? then pp.b < buckets.Length else pp.l in mem && !mem[pp.l].deleted && pp.l != cur
      modifies this`mem, this`numDel, buckets
      ensures Owned() && buckets[..] == Heads(old(buckets[..]), pp, to)
      ensures cur in Linked(old(mem), pp, to) && mem == Retired(Linked(old(mem), pp, to), cur, inFile)
    {
      Poke(pp, to);
      DelRec(cur);
    }

    /** A new record spliced in where `pp` points, the old one retired; or no room, and nothing. */
    method Splice(pp: Slot, ghost c: seq<Link>, ghost b: nat, ghost i: nat, key: Key, val: seq<byte>,
                  alloc: Option<Link>)
      returns (l: Link)
      requires Owned() && Holds(pp, c, b, i)
      requires !inFile && alloc.Some? ==> alloc.value != 0 && alloc.value !in mem
      modifies this`mem, this`numRec, this`numDel, this`nextOffset, buckets
      ensures Owned() && (l == 0 <==> !Room(old(nextOffset), key, val, alloc))
      ensures nextOffset == NextOffset(old(nextOffset), key, val, l != 0)
      ensures l == 0 ==> buckets[..] == old(buckets[..]) && mem == old(mem)
      ensures l != 0 ==> l !in old(mem) && mem == SwapMem(old(mem), c, b, i, l, key, val, inFile)
      ensures l != 0 ==> buckets[..] == Heads(old(buckets[..]), pp, l)
    {
      var cur := Load(pp);
      l := Renew(cur, key, val, alloc);
      if l != 0 { Relink(pp, l, cur); }
    }

    lemma HoldsAt(pp: Slot, b: nat, i: nat)
      requires Valid() && b < NUM_BUCKETS && i < |chains[b]| && pp == SlotOf(chains[b], b, i)
      ensures Holds(pp, chains[b], b, i)
    {
      Walk(hash, buckets[..], mem, chains, b, i);
    }

    /** The walk's find, element `i` of bucket `b`, replaced by a new record; unless there is no room. */
    method Replace(pp: Slot, b: nat, ghost i: nat, key: Key, val: seq<byte>, alloc: Option<Link>) returns (ok: bool)
      requires Valid() && b == Home(hash, key) && i < |chains[b]| && pp == SlotOf(chains[b], b, i)
      requires !inFile && alloc.Some? ==> alloc.value != 0 && alloc.value !in mem
      modifies this, buckets
      ensures Valid() && ok == Room(old(nextOffset), key, val, alloc)
      ensures nextOffset == NextOffset(old(nextOffset), key, val, ok)
      ensures ok ==> Contents() == old(Contents())[b := old(Contents())[b][i := Entry(key, val)]]
      ensures !ok ==> buckets[..] == old(buckets[..]) && mem == old(mem) && chains == old(chains)
    {
      HoldsAt(pp, b, i);
      var l := Splice(pp, chains[b], b, i, key, val, alloc);
      if l == 0 { return false; }
      SwapAll(hash, old(buckets[..]), old(mem), chains, i, l, key, val, inFile);
      chains := chains[b := chains[b][i := l]];
      return true;
    }

    /** A new record at the head of a bucket; or no room, and nothing. */
    method Push(b: nat, key: Key, val: seq<byte>, alloc: Option<Link>) returns (l: Link)
      requires Owned() && b < buckets.Length
      requires !inFile && alloc.Some? ==> alloc.value != 0 && alloc.value !in mem
      modifies this`mem, this`numRec, this`nextOffset, buckets
      ensures Owned() && (l == 0 <==> !Room(old(nextOffset), key, val, alloc))
      ensures nextOffset == NextOffset(old(nextOffset), key, val, l != 0)
      ensures l == 0 ==> buckets[..] == old(buckets[..]) && mem == old(mem)
      ensures l != 0 ==> l !in old(mem) && mem == PushMem(old(buckets[..]), old(mem), b, l, key, val)
      ensures l != 0 ==> buckets[..] == old(buckets[..])[b := l]
    {
      l := CreateRec(key, val, alloc);
      if l != 0 {
        Overwritten(old(mem), l, Rec(0, false, key, val), Rec(buckets[b], false, key, val));
        SetNext(l, buckets[b]);
        buckets[b] := l;
      }
    }

    /** No entry matched: a new record at the head of the bucket; unless there is no room. */
    method Insert(b: nat, key: Key, val: seq<byte>, alloc: Option<Link>) returns (ok: bool)
      requires Valid() && b == Home(hash, key)
      requires !inFile && alloc.Some? ==> alloc.value != 0 && alloc.value !in mem
      modifies this, buckets
      ensures Valid() && ok == Room(old(nextOffset), key, val, alloc)
      ensures nextOffset == NextOffset(old(nextOffset), key, val, ok)
      ensures ok ==> Contents() == old(Contents())[b := [Entry(key, val)] + old(Contents())[b]]
      ensures !ok ==> buckets[..] == old(buckets[..]) && mem == old(mem) && chains == old(chains)
    {
      var l := Push(b, key, val, alloc);
      if l == 0 { return false; }
      PushAll(hash, old(buckets[..]), old(mem), chains, l, key, val);
      chains := chains[b := [l] + chains[b]];
      return true;
    }

    /** The walk of `hash_put` and `hash_del`: to the slot that holds the first record that matches, or the last. */
    method Seek(key: Key, over: Over) returns (pp: Slot, ghost i: nat)
      requires Valid()
      ensures var h := Home(hash, key);
              && Unmatched(Contents()[h], i, key, over) && i == Find(Contents()[h], key, over, 0)
              && pp == SlotOf(chains[h], h, Find(Contents()[h], key, over, 0))
              && (pp.NextOf? ==> pp.l in mem) && (pp.Bucket? ==> pp.b == h)
              && Load(pp) == At(chains[h], i)
              && (Load(pp) == 0 <==> i == |chains[h]|)
    {
      var idx := Home(hash, key);
      pp, i := Bucket(idx), 0;
      ghost var c, es := chains[idx], Contents()[idx];
      Visit(hash, buckets[..], mem, chains, idx, c, es, i);
      while Load(pp) != 0
        invariant Unmatched(es, i, key, over) && pp == SlotOf(c, idx, i) && (pp.NextOf? ==> pp.l in mem)
        invariant Load(pp) == At(c, i)
        decreases |c| - i
      {
        Visit(hash, buckets[..], mem, chains, idx, c, es, i);
        var cur := Load(pp);
        var rec := mem[cur];
        if Matches(key, Entry(rec.key, rec.val), over) { break; }
        pp, i := NextOf(cur), i + 1;
      }
      Visit(hash, buckets[..], mem, chains, idx, c, es, i);
      FindFirst(es, key, over, 0, i);
    }

    /** `hash_put`. If there is no room, the store is as it was. */
    method HashPut(key: Key, val: seq<byte>, over: Over, alloc: Option<Link>) returns (ok: bool)
      requires Valid() && (!inFile && alloc.Some? ==> alloc.value != 0 && alloc.value !in mem)
      modifies this, buckets
      ensures Valid() && ok == Room(old(nextOffset), key, val, alloc)
      ensures nextOffset == NextOffset(old(nextOffset), key, val, ok)
      ensures var h := Home(hash, key);
              Contents() == if ok then old(Contents())[h := PutIn(old(Contents())[h], key, val, over)]
                            else old(Contents())
      ensures !ok ==> buckets[..] == old(buckets[..]) && mem == old(mem)
    {
      var pp, i := Seek(key, over);
      if Load(pp) != 0 {
        ok := Replace(pp, Home(hash, key), i, key, val, alloc);
      } else {
        ok := Insert(Home(hash, key), key, val, alloc);
      }
    }

    /** The walk's find, element `i` of bucket `b`, taken out. */
    method Unchain(pp: Slot, b: nat, ghost i: nat)
      requires Valid() && b < NUM_BUCKETS && i < |chains[b]| && pp == SlotOf(chains[b], b, i)
      modifies this, buckets
      ensures Valid() && Contents() == old(Contents())[b := Cut(old(Contents())[b], i)]
      ensures chains == old(chains)[b := Cut(old(chains)[b], i)] && nextOffset == old(nextOffset)
    {
      Walk(hash, buckets[..], mem, chains, b, i);
      CutAll(hash, buckets[..], mem, chains, b, i, inFile);
      var cur := Load(pp);
      Relink(pp, mem[cur].next, cur);
      chains := chains[b := Cut(chains[b], i)];
    }

    /** `hash_del`. */
    method HashDel(key: Key, over: Over) returns (ok: bool)
      requires Valid()
      modifies this, buckets
      ensures Valid() && ok == GetIn(old(Contents())[Home(hash, key)], key, over).Some? && nextOffset == old(nextOffset)
      ensures var h := Home(hash, key); Contents() == old(Contents())[h := DelIn(old(Contents())[h], key, over)]
    {
      var pp, i := Seek(key, over);
      if Load(pp) == 0 { return false; }
      Unchain(pp, Home(hash, key), i);
      return true;
    }

    /** The record at `l` lies within the file. */
    ghost predicate InFile(l: Link)
      reads this
    {
      l in mem && l + Size(mem[l]) <= DB_SIZE
    }

    /** Each bucket's links run through records and end: `paths[b]` are the links of bucket `b`. */
    ghost predicate Ending(paths: seq<seq<Link>>)
      reads this, buckets
    {
      |paths| == buckets.Length == NUM_BUCKETS && forall b: nat :: b < NUM_BUCKETS ==> Runs(mem, buckets[b], paths[b])
    }

    /** `file_check`, for any file whose chains end, whatever the records' flags, keys and places: it accepts exactly
        when the mark and the version are right and every record of every chain lies within the file. So it accepts
        every state the store reaches. */
    method FileCheck(ghost paths: seq<seq<Link>>) returns (ok: bool)
      requires Ending(paths)
      ensures ok <==> magic == DB_MAGIC && version == 1
                      && forall b: nat, i: nat :: b < NUM_BUCKETS && i < |paths[b]| ==> InFile(paths[b][i])
      ensures Valid() && inFile ==> ok
    {
      if magic != DB_MAGIC { return false; }
      if version != 1 { return false; }
      for b := 0 to NUM_BUCKETS
        invariant forall x: nat, i: nat :: x < b && i < |paths[x]| ==> InFile(paths[x][i])
      {
        ok := CheckChain(b, paths[b]);
        if !ok { return; }
      }
      return true;
    }

    /** The walk of one chain by `file_check`. */
    method CheckChain(b: nat, ghost c: seq<Link>) returns (ok: bool)
      requires b < buckets.Length && Runs(mem, buckets[b], c)
      ensures ok <==> forall i: nat :: i < |c| ==> InFile(c[i])
      ensures Valid() && inFile ==> ok
    {
      var link := buckets[b];
      ghost var i: nat := 0;
      forall j: nat | j < |c| ensures c[j] != 0 { assert RunsAt(mem, c, j); }
      while link != 0
        invariant i <= |c| && link == At(c, i)
        invariant forall j: nat :: j < i ==> InFile(c[j])
        decreases |c| - i
      {
        assert RunsAt(mem, c, i);
        if link + REC_HDR > DB_SIZE { assert !InFile(c[i]); return false; }
        var rec := mem[link];
        if link + REC_HDR + |rec.key| + |rec.val| > DB_SIZE { assert !InFile(c[i]); return false; }
        link, i := rec.next, i + 1;
      }
      return true;
    }

    /** The store's own chains end. */
    lemma ValidEnds()
      requires Valid()
      ensures Ending(chains)
    {
      forall b: nat | b < NUM_BUCKETS ensures Runs(mem, buckets[b], chains[b]) {
        assert Chain(hash, mem, buckets[..][b], chains[b], b);
        forall i: nat | i < |chains[b]| ensures RunsAt(mem, chains[b], i) {
          assert Element(hash, mem, chains[b], b, i);
        }
      }
    }

    method Pop(b: nat)
      requires Valid() && b < NUM_BUCKETS && buckets[b] != 0
      modifies this, buckets
      ensures Valid() && chains == old(chains)[b := chains[b]] && |chains[b]| == old(|chains[b]|) - 1
    {
      Walk(hash, buckets[..], mem, chains, b, 0);
      Unchain(Bucket(b), b, 0);
    }

    method Drain(b: nat)
      requires Valid() && b < NUM_BUCKETS
      modifies this, buckets
      ensures Valid() && chains == old(chains)[b := []]
    {
      while buckets[b] != 0
        invariant Valid() && chains == old(chains)[b := chains[b]]
        decreases |chains[b]|
      {
        Pop(b);
      }
      Walk(hash, buckets[..], mem, chains, b, 0);
    }

    /** `hash_deinit`: every record is freed, once. */
    method Deinit()
      requires Valid() && !inFile
      modifies this, buckets
      ensures Valid() && mem == map[]
    {
      for b := 0 to NUM_BUCKETS
        invariant Valid() && forall x :: 0 <= x < b ==> chains[x] == []
      {
        Drain(b);
      }
      NoRecords(hash, buckets[..], mem, chains);
    }
  }
}
