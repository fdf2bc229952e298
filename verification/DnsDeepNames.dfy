/** The bound of 17 labels is tight: a run of names with one more label that the encoder compresses and
    the decoder refuses. */
module DnsDeepNames {
  import opened Bytes
  import opened DnsName
  import opened DnsWire

  const LETTER: byte := 97

  /** A name of `n` one-letter labels. */
  function Chain(n: nat): (s: seq<byte>)
    requires n >= 1
    ensures |s| == 2 * n - 1
    ensures forall i :: 0 <= i < |s| ==> s[i] == if i % 2 == 0 then LETTER else DOT
  {
    if n == 1 then [LETTER] else [LETTER, DOT] + Chain(n - 1)
  }

  /** The chains of 1 to `n` labels. */
  function Chains(n: nat): (s: seq<seq<byte>>)
    ensures |s| == n
  {
    if n == 0 then [] else Chains(n - 1) + [Chain(n)]
  }

  /** Where chain `i` lies: the first takes 3 bytes, each other a label and a pointer. */
  function Place(i: nat): nat
    requires i >= 1
  {
    if i == 1 then HDR_LEN else 4 * i + 7
  }

  lemma ChainShape(n: nat)
    requires n >= 1
    ensures DotFrom(Chain(n), 0) == 1
    ensures After(Chain(n), 0) == if n == 1 then 1 else 2
    ensures n >= 2 ==> CaseEqFrom(Chain(n - 1), 0, Chain(n), 2)
  {
  }

  lemma {:induction false} ChainWellFormed(n: nat, k: nat)
    requires n >= 1 && k <= n
    ensures var at := if k == n then |Chain(n)| else 2 * k;
            WellFormed(Chain(n), at) && Labels(Chain(n), at) == n - k
    decreases n - k
  {
    if k < n {
      assert DotFrom(Chain(n), 2 * k) == 2 * k + 1;
      ChainWellFormed(n, k + 1);
    }
  }

  /** The table holds the chains in order and the packet links each to the one before. */
  ghost predicate Linked(e: Enc, n: nat) {
    && |e.table| == n && |e.p| == 4 * n + 11
    && (forall i :: 0 <= i < n ==> Known(e.table, i) == Suffix(Chain(i + 1), 0, Place(i + 1)))
    && (forall i :: 2 <= i <= n ==> LinkAt(e.p, i))
  }

  ghost predicate LinkAt(p: seq<byte>, i: nat)
    requires i >= 2
  {
    && Place(i) + 4 <= |p| && p[Place(i)] == 1 && p[Place(i) + 1] == LETTER
    && p[Place(i) + 2] >= COMP_PTR && Target(p, Place(i) + 2) == Place(i - 1)
  }

  lemma {:induction false} FindSkips(table: seq<Suffix>, start: nat, name: seq<byte>, k: nat, i: nat, hit: nat)
    requires i <= hit <= |table| && k <= |name|
    requires forall j :: i <= j < hit ==> !Usable(Known(table, j), start, name, k)
    requires hit < |table| ==> Usable(Known(table, hit), start, name, k)
    ensures Find(table, start, name, k, i) == hit
    decreases hit - i
  {
    if i < hit { FindSkips(table, start, name, k, i + 1, hit); }
  }

  lemma NextEncoding(e: Enc, n: nat)
    requires 1 <= n < MAX_SUFFIX - 1 && Linked(e, n)
    ensures var name, start := Chain(n + 1), |e.p|;
            Encode(e.table, start, start, name, 0)
              == Encoded([1, LETTER] + PtrBytes(Place(n)), Remember(e.table, name, 0, start))
  {
    var name, start := Chain(n + 1), |e.p|;
    ChainShape(n + 1);
    FindSkips(e.table, start, name, 0, 0, n);
    var table' := Remember(e.table, name, 0, start);
    assert forall i :: 0 <= i < n ==> Known(table', i) == Known(e.table, i);
    FindSkips(table', start, name, 2, 0, n - 1);
    assert [1 as byte] + Piece(name, 0, 1) == [1, LETTER];
  }

  lemma AppendLink(p: seq<byte>, n: nat)
    requires 1 <= n < MAX_SUFFIX && |p| == 4 * n + 11 && forall i :: 2 <= i <= n ==> LinkAt(p, i)
    ensures forall i :: 2 <= i <= n + 1 ==> LinkAt(p + ([1, LETTER] + PtrBytes(Place(n))), i)
  {
    var b := PtrBytes(Place(n));
    var q := p + ([1, LETTER] + b);
    forall i | 2 <= i <= n + 1
      ensures LinkAt(q, i)
    {
      if i <= n {
        assert LinkAt(p, i);
      } else {
        assert q[|p| + 2] == b[0] && q[|p| + 3] == b[1];
        PtrReadsBack(q, |p| + 2, Place(n));
      }
    }
  }

  /** Adding the next chain costs one label and one pointer to the previous chain. */
  lemma LinkNext(e: Enc, n: nat)
    requires 1 <= n < MAX_SUFFIX - 1 && Linked(e, n)
    ensures AddName(e, Chain(n + 1)).Some? && Linked(AddName(e, Chain(n + 1)).value, n + 1)
  {
    NextEncoding(e, n);
    AppendLink(e.p, n);
    var e' := AddName(e, Chain(n + 1)).value;
    forall i | 0 <= i <= n
      ensures Known(e'.table, i) == Suffix(Chain(i + 1), 0, Place(i + 1))
    {
      if i < n { assert Known(e'.table, i) == Known(e.table, i); }
    }
  }

  const START := Enc([0, 0, 0, 0, 0, 0, 0, 0, 0, 0, 0, 0], [])

  lemma LinkFirst(n: nat)
    requires n == 1
    ensures AddName(START, Chain(n)).Some? && Linked(AddName(START, Chain(n)).value, n)
  {
    ChainShape(n);
    var table' := Remember([], Chain(n), 0, HDR_LEN);
    assert Encode(table', HDR_LEN, HDR_LEN + 2, Chain(n), 1) == Encoded([0], table');
  }

  lemma LinkAll(n: nat)
    requires 1 <= n < MAX_SUFFIX
    ensures AddNames(START, Chains(n)).Some? && Linked(AddNames(START, Chains(n)).value, n)
  {
    LinkFrom(START, n);
  }

  lemma {:induction false} LinkFrom(e: Enc, n: nat)
    requires 1 <= n < MAX_SUFFIX && e == START
    ensures AddNames(e, Chains(n)).Some? && Linked(AddNames(e, Chains(n)).value, n)
  {
    LastChain(e, n);
    if n == 1 {
      assert Chains(n - 1) == [];
      LinkFirst(n);
    } else {
      LinkFrom(e, n - 1);
      LinkNext(AddNames(e, Chains(n - 1)).value, n - 1);
    }
  }

  lemma LastChain(e: Enc, n: nat)
    requires n >= 1
    ensures AddNames(e, Chains(n - 1)).Some? ==>
            AddNames(e, Chains(n)) == AddName(AddNames(e, Chains(n - 1)).value, Chain(n))
  {
    var names := Chains(n);
    assert names[..n - 1] == Chains(n - 1) && names[n - 1] == Chain(n);
  }

  /** Reading chain `n` takes n - 1 jumps. */
  lemma {:induction false} ChainExceedsJumps(p: seq<byte>, n: nat, njmp: nat, room: nat)
    requires 1 <= n && njmp <= MAX_JMP + 1 && njmp + n - 1 > MAX_JMP + 1 && 2 * n < room
    requires forall i :: 2 <= i <= n ==> LinkAt(p, i)
    ensures Decode(p, Place(n), njmp, room) == Bad(MaxJump)
  {
    assert LinkAt(p, n);
    assert HeadAt(p, Place(n), njmp, room) == Label(1, [DOT]);
    if njmp <= MAX_JMP {
      assert HeadAt(p, Place(n) + 2, njmp, room - 2) == Jump(Place(n - 1));
      ChainExceedsJumps(p, n - 1, njmp + 1, room - 2);
    }
  }

  // ---- a longer chain on top ----

  const DEEP := MAX_JMP + 2

  /** The first entries are the chains, and nothing else in the table may be used for a name that begins at `start`. */
  ghost predicate Deep(table: seq<Suffix>, start: nat) {
    && DEEP <= |table|
    && (forall i :: 0 <= i < DEEP ==> Known(table, i) == Suffix(Chain(i + 1), 0, Place(i + 1)))
    && (forall i :: DEEP <= i < |table| ==> Known(table, i).offset >= start)
  }

  /** Labels of one letter, then a pointer to the chain of 18. */
  function Tower(d: nat): (b: seq<byte>)
    ensures |b| == 2 * d + 2
  {
    if d == 0 then PtrBytes(Place(DEEP)) else [1, LETTER] + Tower(d - 1)
  }

  /** Entry `i` is shorter than what is left of the name, or not to be used. */
  lemma DeepMiss(table: seq<Suffix>, start: nat, name: seq<byte>, k: nat, i: nat)
    requires Deep(table, start) && i < |table| && k <= |name| && (i < DEEP ==> 2 * i + 1 < |name| - k)
    ensures !Usable(Known(table, i), start, name, k)
  {
  }

  lemma DeepUsable(start: nat, n: nat, k: nat)
    requires k + DEEP == n && start == 4 * DEEP + 11
    ensures Usable(Suffix(Chain(DEEP), 0, Place(DEEP)), start, Chain(n), 2 * k)
  {
    var a, b := Chain(DEEP), Chain(n);
    forall j | 2 * k <= j < |b| ensures LowerByte(a[j - 2 * k + 0]) == LowerByte(b[j]) {
      assert (j - 2 * k) % 2 == j % 2;
    }
  }

  /** The table has no usable suffix of more than 18 labels, and one of exactly 18. */
  lemma DeepFind(table: seq<Suffix>, start: nat, n: nat, k: nat)
    requires Deep(table, start) && start == 4 * DEEP + 11 && k + DEEP <= n
    ensures Find(table, start, Chain(n), 2 * k, 0) == if k + DEEP == n then DEEP - 1 else |table|
  {
    var name, hit := Chain(n), if k + DEEP == n then DEEP - 1 else |table|;
    forall i | 0 <= i < hit ensures !Usable(Known(table, i), start, name, 2 * k) {
      DeepMiss(table, start, name, 2 * k, i);
    }
    if k + DEEP == n { DeepUsable(start, n, k); }
    FindSkips(table, start, name, 2 * k, 0, hit);
  }

  lemma DeepRemember(table: seq<Suffix>, start: nat, name: seq<byte>, k: nat, pos: nat)
    requires Deep(table, start) && start <= pos < 0x1_0000
    ensures Deep(Remember(table, name, k, pos), start)
  {
    var t := Remember(table, name, k, pos);
    assert forall i :: 0 <= i < |table| ==> Known(t, i) == Known(table, i);
    assert |t| > |table| ==> Known(t, |table|).offset == pos;
  }

  lemma ChainLabel(n: nat, k: nat)
    requires k + 1 < n
    ensures DotFrom(Chain(n), 2 * k) == 2 * k + 1 && After(Chain(n), 2 * k) == 2 * (k + 1)
    ensures [1 as byte] + Piece(Chain(n), 2 * k, 1) == [1, LETTER]
  {
  }

  /** The encoding from `k` on is these bytes. */
  ghost predicate Writes(table: seq<Suffix>, start: nat, pos: nat, name: seq<byte>, k: nat, b: seq<byte>)
    requires k <= |name|
  {
    var r := Encode(table, start, pos, name, k);
    r.Encoded? && r.bytes == b
  }

  /** A label of one letter written out, and the rest. */
  lemma WritesLabel(table: seq<Suffix>, start: nat, pos: nat, name: seq<byte>, k: nat, next: nat, rest: seq<byte>)
    requires k < next <= |name| && Find(table, start, name, k, 0) == |table|
    requires DotFrom(name, k) == k + 1 && After(name, k) == next && [1 as byte] + Piece(name, k, 1) == [1, LETTER]
    requires Writes(Remember(table, name, k, pos), start, pos + 2, name, next, rest)
    ensures Writes(table, start, pos, name, k, [1, LETTER] + rest)
  {
  }

  lemma {:induction false} DeepEncode(table: seq<Suffix>, start: nat, n: nat, name: seq<byte>, k: nat, d: nat, pos: nat)
    requires Deep(table, start) && start == 4 * DEEP + 11 && k + DEEP + d == n <= 127 && pos == start + 2 * k
    requires name == Chain(n)
    ensures Writes(table, start, pos, name, 2 * k, Tower(d))
    decreases d
  {
    DeepFind(table, start, n, k);
    if d > 0 {
      DeepRemember(table, start, name, 2 * k, pos);
      DeepEncode(Remember(table, name, 2 * k, pos), start, n, name, k + 1, d - 1, pos + 2);
      ChainLabel(n, k);
      WritesLabel(table, start, pos, name, 2 * k, 2 * (k + 1), Tower(d - 1));
    } else {
      DeepHit(table, start, n, k, pos);
    }
  }

  lemma DeepHit(table: seq<Suffix>, start: nat, n: nat, k: nat, pos: nat)
    requires Deep(table, start) && k + DEEP == n && Find(table, start, Chain(n), 2 * k, 0) == DEEP - 1
    ensures Writes(table, start, pos, Chain(n), 2 * k, Tower(0))
  {
  }

  lemma {:induction false} TowerFails(p: seq<byte>, at: nat, d: nat, room: nat)
    requires Written(p, at, Tower(d)) && 2 * d + 2 * DEEP < room
    requires forall i :: 2 <= i <= DEEP ==> LinkAt(p, i)
    ensures Decode(p, at, 0, room) == Bad(MaxJump)
    decreases d
  {
    if d == 0 {
      PtrReadsBack(p, at, Place(DEEP));
      assert LinkAt(p, DEEP);
      assert HeadAt(p, at, 0, room) == Jump(Place(DEEP));
      ChainExceedsJumps(p, DEEP, 1, room);
    } else {
      WrittenSplit(p, at, [1, LETTER], Tower(d - 1));
      var b := Tower(d - 1);
      assert p[at] == [1, LETTER][0] && p[at + 2] == b[0];
      assert b[0] > 0;
      TowerFails(p, at + 2, d - 1, room - 2);
      LabelFails(p, at, 0, room);
    }
  }

  lemma LabelFails(p: seq<byte>, at: nat, njmp: nat, room: nat)
    requires at + 2 < |p| && p[at] == 1 && p[at + 2] != 0 && njmp <= MAX_JMP + 1 && room > 2
    requires Decode(p, at + 2, njmp, room - 2) == Bad(MaxJump)
    ensures Decode(p, at, njmp, room) == Bad(MaxJump)
  {
    assert HeadAt(p, at, njmp, room) == Label(1, [DOT]);
  }

  lemma DeepWellFormed(n: nat, i: nat)
    requires DEEP <= n <= 127 && i <= DEEP
    ensures var name := (Chains(DEEP) + [Chain(n)])[i]; WellFormed(name, 0) && |name| <= NAME_MAXSTR
  {
    if i < DEEP { ChainsAt(DEEP, i); }
    ChainWellFormed(if i < DEEP then i + 1 else n, 0);
  }

  /** Chains of 1 to 18 labels and then one of `n`, all well formed, encode; yet for every `n` from 18 to 127, the
      most a name can have, the decoder refuses the last, which takes 18 jumps. */
  lemma DeepNamesFail(n: nat)
    requires DEEP <= n <= 127
    ensures var names := Chains(DEEP) + [Chain(n)];
            && (forall i :: 0 <= i < |names| ==> WellFormed(names[i], 0) && |names[i]| <= NAME_MAXSTR)
            && Labels(Chain(n), 0) == n && AddNames(START, names).Some?
            && Decode(AddNames(START, names).value.p, 4 * DEEP + 11, 0, 1124) == Bad(MaxJump)
  {
    var names := Chains(DEEP) + [Chain(n)];
    forall i | 0 <= i < |names| ensures WellFormed(names[i], 0) && |names[i]| <= NAME_MAXSTR {
      DeepWellFormed(n, i);
    }
    DeepRun(n, names);
    ChainWellFormed(n, 0);
  }

  lemma DeepRun(n: nat, names: seq<seq<byte>>)
    requires DEEP <= n <= 127 && names == Chains(DEEP) + [Chain(n)]
    ensures AddNames(START, names).Some?
    ensures Decode(AddNames(START, names).value.p, 4 * DEEP + 11, 0, 1124) == Bad(MaxJump)
  {
    LinkAll(DEEP);
    assert names[..DEEP] == Chains(DEEP);
    var e, b := AddNames(START, Chains(DEEP)).value, Tower(n - DEEP);
    LinkedDeep(e);
    TopEncodes(e, n, Chain(n), b, 0);
    TopDecodes(e.p, n, b, e.p + b);
  }

  lemma {:induction false} ChainsAt(n: nat, i: nat)
    requires i < n
    ensures Chains(n)[i] == Chain(i + 1)
  {
    if i < n - 1 { ChainsAt(n - 1, i); }
  }

  lemma TopEncodes(e: Enc, n: nat, name: seq<byte>, b: seq<byte>, k: nat)
    requires Deep(e.table, |e.p|) && |e.p| == 4 * DEEP + 11 && k == 0
    requires DEEP <= n <= 127 && name == Chain(n) && b == Tower(n - DEEP)
    ensures AddName(e, name).Some? && AddName(e, name).value.p == e.p + b
  {
    DeepEncode(e.table, |e.p|, n, name, k, n - DEEP, |e.p|);
    WritesName(e, name, b);
  }

  lemma LinkedDeep(e: Enc)
    requires Linked(e, DEEP)
    ensures Deep(e.table, |e.p|) && |e.p| == 4 * DEEP + 11
  {
  }

  lemma TopDecodes(p: seq<byte>, n: nat, b: seq<byte>, q: seq<byte>)
    requires DEEP <= n <= 127 && b == Tower(n - DEEP) && q == p + b && forall i :: 2 <= i <= DEEP ==> LinkAt(p, i)
    ensures Decode(q, |p|, 0, 1124) == Bad(MaxJump)
  {
    LinksStay(p, b, q);
    TowerFails(q, |p|, n - DEEP, 1124);
  }

  lemma WritesName(e: Enc, name: seq<byte>, b: seq<byte>)
    requires Writes(e.table, |e.p|, |e.p|, name, 0, b)
    ensures AddName(e, name).Some? && AddName(e, name).value.p == e.p + b
  {
  }

  lemma LinksStay(p: seq<byte>, b: seq<byte>, q: seq<byte>)
    requires q == p + b && forall i :: 2 <= i <= DEEP ==> LinkAt(p, i)
    ensures Written(q, |p|, b) && forall i :: 2 <= i <= DEEP ==> LinkAt(q, i)
  {
    forall i | 2 <= i <= DEEP ensures LinkAt(q, i) { assert LinkAt(p, i); }
  }
}
