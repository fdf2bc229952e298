/** The store's own hash, and two keys it does not keep apart. */
module StoreHash {
  import opened Bytes
  import opened Chains
  import opened Entries
  import opened Arena
  import S = Store
  import opened StoreRuns

  const SEED := 5381
  const WORD := 0x1_0000_0000_0000_0000

  /** `h ^ b`: only the low eight bits change. */
  function XorByte(h: nat, b: byte): nat {
    h - h % 256 + (((h % 256) as bv8) ^ (b as bv8)) as nat
  }

  /** DJB2a in 64 bits, from byte `i` on. */
  function Djb2a(key: Key, i: nat, h: nat): nat
    requires i <= |key|
    decreases |key| - i
  {
    if i == |key| then h else Djb2a(key, i + 1, XorByte(33 * h % WORD, key[i]))
  }

  function StoreHash(key: Key): nat {
    Djb2a(key, 0, SEED)
  }

  /** `dbj2a_hash`. */
  method HashKey(key: Key) returns (h: nat)
    ensures h == StoreHash(key)
  {
    h := SEED;
    for i := 0 to |key|
      invariant Djb2a(key, i, h) == StoreHash(key)
    {
      h := XorByte((h * 32 + h) % WORD, key[i]);
    }
  }

  const A: Key := [97]                // "a"
  const AJI: Key := [97, 106, 105]    // "aji"

  lemma XorAt(h: nat, b: byte, low: nat, x: nat)
    requires h % 256 == low && ((low as bv8) ^ (b as bv8)) as nat == x
    ensures XorByte(h, b) == h - low + x
  {
  }

  lemma Xors()
    ensures (165 as bv8 ^ 97 as bv8) as nat == 196
    ensures (68 as bv8 ^ 106 as bv8) as nat == 46
    ensures (238 as bv8 ^ 105 as bv8) as nat == 135
  {
  }

  /** The three exclusive ors of the two keys, worked out. */
  lemma Worked(n0: nat, n1: nat, n2: nat, a: byte, j: byte, i: byte)
    requires n0 == 177573 && n1 == 5860932 && n2 == 193410030 && a == 97 && j == 106 && i == 105
    ensures XorByte(n0, a) == 177604 && XorByte(n1, j) == 5860910 && XorByte(n2, i) == 193409927
  {
    Xors();
    XorAt(n0, a, 165, 196);
    XorAt(n1, j, 68, 46);
    XorAt(n2, i, 238, 135);
  }

  /** One round. */
  lemma Round(key: Key, i: nat, h: nat, n: nat, h': nat)
    requires i < |key| && n == 33 * h % WORD && XorByte(n, key[i]) == h'
    ensures Djb2a(key, i, h) == Djb2a(key, i + 1, h')
  {
  }

  lemma Last(key: Key, i: nat, h: nat)
    requires i == |key|
    ensures Djb2a(key, i, h) == h
  {
  }

  lemma Hashes(a: Key, aji: Key, h0: nat, h1: nat, h2: nat, h3: nat)
    requires a == A && aji == AJI && h0 == SEED && h1 == 177604 && h2 == 5860910 && h3 == 193409927
    ensures Djb2a(a, 0, h0) == h1 && Djb2a(aji, 0, h0) == h3
  {
    var n0, n1, n2: nat :| n0 == 33 * h0 % WORD && n1 == 33 * h1 % WORD && n2 == 33 * h2 % WORD;
    Worked(n0, n1, n2, a[0], aji[1], aji[2]);
    Round(a, 0, h0, n0, h1);
    Last(a, 1, h1);
    Round(aji, 0, h0, n0, h1);
    Round(aji, 1, h1, n1, h2);
    Round(aji, 2, h2, n2, h3);
    Last(aji, 3, h3);
  }

  lemma HashesAre(a: Key, aji: Key)
    requires a == A && aji == AJI
    ensures StoreHash(a) == 177604 && StoreHash(aji) == 193409927
  {
    var h0, h1, h2, h3: nat :| h0 == SEED && h1 == 177604 && h2 == 5860910 && h3 == 193409927;
    Hashes(a, aji, h0, h1, h2, h3);
  }

  /** "a" and "aji" share bucket 12461. */
  lemma SharedBucket(a: Key, aji: Key)
    requires a == A && aji == AJI
    ensures Home(StoreHash, a) == Home(StoreHash, aji) == 12461
  {
    HashesAre(a, aji);
  }

  /** So the store confuses them: in a new store, in a file or on the heap, a set of "aji" and then a get of "a",
      which was never set, answers with the value of "aji". */
  method Confused(inFile: bool, a: Key, aji: Key, val: seq<byte>, over: Over, address: Memory -> Link)
    returns (out: seq<Reply>)
    requires a == A && aji == AJI && GoodAddresses(address) && BASE + REC_HDR + |AJI| + |val| <= DB_SIZE
    ensures out == [Stored(true), Found(Some(val))]
  {
    var s := new S.Store(StoreHash, inFile);
    ghost var c, next := s.Contents(), s.nextOffset;
    SharedBucket(a, aji);
    assert c == Nothing();
    PrefixConfuses(StoreHash, inFile, next, a, aji, val, over, over);
    var ops := [Set(aji, val, over, true), Get(a, over)];
    out := Run(s, ops, address);
    assert out[0] == ReplyAt(StoreHash, c, inFile, next, ops, 0);
    assert out[1] == ReplyAt(StoreHash, c, inFile, next, ops, 1);
  }
}
