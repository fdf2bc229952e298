/** The encoder and decoder as they work: a packet buffer written in place with space reserved and given
    back, and a decoder that walks and jumps in a packet. */
module DnsCodec {
  import opened Bytes
  import opened DnsName
  import opened DnsWire
  import opened DnsRecord

  function Join(b: seq<byte>, r: Encoded): Encoded {
    if r.Encoded? then Encoded(b + r.bytes, r.table) else r
  }

  lemma JoinJoin(a: seq<byte>, b: seq<byte>, r: Encoded)
    ensures Join(a, Join(b, r)) == Join(a + b, r)
  {
    if r.Encoded? { assert a + (b + r.bytes) == a + b + r.bytes; }
  }

  /** The label at `k` with its length in front. */
  function LabelBytes(name: seq<byte>, k: nat): (b: seq<byte>)
    requires k <= |name| && DotFrom(name, k) - k <= LABEL_MAXSTR
    ensures |b| == 1 + DotFrom(name, k) - k
  {
    [(DotFrom(name, k) - k) as byte] + Piece(name, k, DotFrom(name, k) - k)
  }

  /** One label of the encoding. */
  lemma EncodeStep(table: seq<Suffix>, start: nat, w: nat, name: seq<byte>, k: nat, done: seq<byte>)
    requires k < |name| && Find(table, start, name, k, 0) == |table| && DotFrom(name, k) - k <= LABEL_MAXSTR
    ensures Join(done, Encode(table, start, w, name, k))
              == Join(done + LabelBytes(name, k),
                      Encode(Remember(table, name, k, w), start, w + |LabelBytes(name, k)|, name, After(name, k)))
  {
    var l := DotFrom(name, k) - k;
    var r := Encode(Remember(table, name, k, w), start, w + 1 + l, name, After(name, k));
    assert Encode(table, start, w, name, k) == Join(LabelBytes(name, k), r);
    JoinJoin(done, LabelBytes(name, k), r);
  }

  /** The packet is as before outside `[a, b)`. */
  ghost predicate Kept(p: seq<byte>, q: seq<byte>, a: nat, b: nat) {
    |p| == |q| && forall i :: 0 <= i < |p| && !(a <= i < b) ==> q[i] == p[i]
  }

  lemma KeptWithin(p: seq<byte>, q: seq<byte>, r: seq<byte>, a: nat, b: nat, c: nat, d: nat)
    requires Kept(p, q, a, b) && Kept(q, r, c, d) && a <= c && d <= b
    ensures Kept(p, r, a, b)
  {
  }

  /** Bytes put right after others extend them. */
  lemma Appended(p: seq<byte>, q: seq<byte>, a: nat, done: seq<byte>, b: seq<byte>)
    requires Written(p, a, done) && Kept(p, q, a + |done|, a + |done| + |b|) && Written(q, a + |done|, b)
    ensures Written(q, a, done + b)
  {
    var c, w := done + b, a + |done|;
    forall i | 0 <= i < |c|
      ensures q[a + i] == c[i]
    {
      if i < |done| {
        assert q[a + i] == p[a + i] == done[i];
      } else {
        assert q[w + (i - |done|)] == b[i - |done|];
      }
    }
  }

  /** Bytes put at the end of a prefix extend the prefix. */
  lemma PrefixGrown(p: seq<byte>, q: seq<byte>, n: nat, b: seq<byte>, end: nat)
    requires n <= |p| && Kept(p, q, n, end) && Written(q, n, b)
    ensures q[..n + |b|] == p[..n] + b
  {
    forall i | 0 <= i < n + |b|
      ensures q[..n + |b|][i] == (p[..n] + b)[i]
    {
      if i >= n { assert q[n + (i - n)] == b[i - n]; }
    }
  }

  /** `done` stands at `start`; followed by what is still to be written it is the whole encoding. */
  ghost predicate Continues(p: seq<byte>, start: nat, done: seq<byte>, table: seq<Suffix>, name: seq<byte>, k: nat,
                            goal: Encoded)
  {
    Written(p, start, done) && k <= |name| && Join(done, Encode(table, start, start + |done|, name, k)) == goal
  }

  lemma StartsAt(p: seq<byte>, start: nat, table: seq<Suffix>, name: seq<byte>)
    requires start <= |p|
    ensures Continues(p, start, [], table, name, 0, Encode(table, start, start, name, 0))
  {
    var r := Encode(table, start, start, name, 0);
    if r.Encoded? { assert [] + r.bytes == r.bytes; }
  }

  lemma EndsWithRoot(p: seq<byte>, q: seq<byte>, start: nat, done: seq<byte>, table: seq<Suffix>, name: seq<byte>,
                     goal: Encoded)
    requires Continues(p, start, done, table, name, |name|, goal)
    requires Kept(p, q, start + |done|, start + |done| + 1) && Written(q, start + |done|, [0])
    ensures goal == Encoded(done + [0], table) && Written(q, start, done + [0])
  {
    Appended(p, q, start, done, [0]);
  }

  /** A name, and then fixed bytes, put at the end of a prefix. */
  lemma HeadGrown(p: seq<byte>, p1: seq<byte>, q: seq<byte>, n: nat, name: seq<byte>, fixed: seq<byte>, end: nat)
    requires n + |name| + |fixed| <= end <= |p| && Kept(p, p1, n, end) && Written(p1, n, name)
    requires Kept(p1, q, n + |name|, n + |name| + |fixed|) && Written(q, n + |name|, fixed)
    ensures q[..n + |name| + |fixed|] == p[..n] + name + fixed
  {
    Appended(p1, q, n, name, fixed);
    PrefixGrown(p, q, n, name + fixed, end);
  }

  lemma NextLabel(p: seq<byte>, q: seq<byte>, start: nat, done: seq<byte>, table: seq<Suffix>, name: seq<byte>, k: nat,
                  goal: Encoded)
    requires Continues(p, start, done, table, name, k, goal) && k < |name|
    requires Find(table, start, name, k, 0) == |table| && DotFrom(name, k) - k <= LABEL_MAXSTR
    requires var w, b := start + |done|, LabelBytes(name, k); Kept(p, q, w, w + |b|) && Written(q, w, b)
    ensures Continues(q, start, done + LabelBytes(name, k), Remember(table, name, k, start + |done|),
                      name, After(name, k), goal)
  {
    EncodeStep(table, start, start + |done|, name, k, done);
    Appended(p, q, start, done, LabelBytes(name, k));
  }

  lemma EndsWithPointer(p: seq<byte>, q: seq<byte>, start: nat, done: seq<byte>, table: seq<Suffix>, name: seq<byte>,
                        k: nat, b: seq<byte>, goal: Encoded)
    requires Continues(p, start, done, table, name, k, goal) && k < |name| && Find(table, start, name, k, 0) < |table|
    requires b == PtrBytes(table[Find(table, start, name, k, 0)].offset)
    requires var w := start + |done|; Kept(p, q, w, w + 2) && Written(q, w, b)
    ensures goal == Encoded(done + b, table) && Written(q, start, done + b)
  {
    Appended(p, q, start, done, b);
  }

  datatype Round = More | Finished | GaveUp

  function ReserveNamed(e: Enc, max: nat, name: seq<byte>, b: seq<byte>): Option<Enc> {
    if |e.p| + NAME_MAXLEN + |b| > max then None
    else match AddName(e, name)
      case None => None
      case Some(e') => Some(AddBytes(e', b))
  }

  /** What is encoded into a packet besides records: a name field, a question. */
  datatype Item = Name(name: seq<byte>) | Question(name: seq<byte>, typ: u16, cls: u16)

  function AddItem(e: Enc, max: nat, item: Item): Option<Enc> {
    match item
    case Name(name) => ReserveName(e, max, name)
    case Question(name, typ, cls) => ReserveNamed(e, max, name, EncU16(typ) + EncU16(cls))
  }

  function Items(e: Enc, max: nat, items: seq<Item>, i: nat): Option<Enc>
    requires i <= |items|
  {
    if i == 0 then Some(e)
    else match Items(e, max, items, i - 1)
      case None => None
      case Some(e') => AddItem(e', max, items[i - 1])
  }

  class Encoder {
    const pkt: array<byte>
    var pktLen: nat
    var suffix: seq<Suffix>

    ghost predicate Valid()
      reads this
    {
      pktLen <= pkt.Length && |suffix| <= MAX_SUFFIX
    }

    /** The packet written so far and the recorded suffixes. */
    ghost function State(): Enc
      requires Valid()
      reads this, pkt
    {
      Enc(pkt[..pktLen], suffix)
    }

    constructor (buf: array<byte>)
      ensures Valid() && pkt == buf && State() == Enc([], [])
    {
      pkt, pktLen, suffix := buf, 0, [];
    }

    method FindSuffix(start: nat, name: seq<byte>, k: nat) returns (i: nat)
      requires k <= |name|
      ensures i <= |suffix| && i == Find(suffix, start, name, k, 0)
    {
      i := 0;
      while i < |suffix|
        invariant i <= |suffix| && Find(suffix, start, name, k, 0) == Find(suffix, start, name, k, i)
      {
        if Usable(suffix[i], start, name, k) { return; }
        i := i + 1;
      }
    }

    /** Put bytes at `w`. */
    method Poke(w: nat, b: seq<byte>)
      requires w + |b| <= pkt.Length
      modifies pkt
      ensures Kept(old(pkt[..]), pkt[..], w, w + |b|) && Written(pkt[..], w, b)
    {
      forall i | 0 <= i < |b| { pkt[w + i] := b[i]; }
    }

    /** One round of the name encoder: a pointer ends the name, a label too long gives up, any other label is
        written out. */
    method EncodeLabel(start: nat, w: nat, name: seq<byte>, k: nat, ghost done: seq<byte>, ghost goal: Encoded)
      returns (round: Round, ghost done': seq<byte>)
      requires |suffix| <= MAX_SUFFIX && k < |name| && w == start + |done| && w + |name| - k + 1 <= pkt.Length
      requires Continues(pkt[..], start, done, suffix, name, k, goal)
      modifies this`suffix, pkt
      ensures |suffix| <= MAX_SUFFIX && Kept(old(pkt[..]), pkt[..], w, w + |name| - k + 1)
      ensures round.More? ==> Continues(pkt[..], start, done', suffix, name, After(name, k), goal)
                              && |done'| == |done| + 1 + DotFrom(name, k) - k
      ensures round.Finished? ==>
              goal == Encoded(done', suffix) && Written(pkt[..], start, done') && |done'| == |done| + 2
      ensures round.GaveUp? ==> goal == TooLong(suffix)
    {
      done' := done;
      var i := FindSuffix(start, name, k);
      ghost var p1, table := pkt[..], suffix;
      if i < |suffix| {
        var ptr := PtrBytes(suffix[i].offset);
        Poke(w, ptr);
        done' := done + ptr;
        EndsWithPointer(p1, pkt[..], start, done, table, name, k, ptr, goal);
        return Finished, done';
      }
      suffix := Remember(suffix, name, k, w);
      if DotFrom(name, k) - k > LABEL_MAXSTR { return GaveUp, done'; }
      Poke(w, LabelBytes(name, k));
      done' := done + LabelBytes(name, k);
      NextLabel(p1, pkt[..], start, done, table, name, k, goal);
      return More, done';
    }

    /** Write a name at `wpos`. For any string of up to 253 bytes, well formed or not, at most two bytes
        more than its length are written; none when a label is too long. */
    method EncodeName(wpos: nat, name: seq<byte>) returns (end: Option<nat>)
      requires |suffix| <= MAX_SUFFIX && |name| <= NAME_MAXSTR && wpos + |name| + 2 <= pkt.Length
      modifies this`suffix, pkt
      ensures |suffix| <= MAX_SUFFIX && Kept(old(pkt[..]), pkt[..], wpos, wpos + |name| + 2)
      ensures match Encode(old(suffix), wpos, wpos, name, 0)
              case Encoded(b, t) => suffix == t && end == Some(wpos + |b|) && Written(pkt[..], wpos, b)
              case TooLong(t) => suffix == t && end.None?
    {
      var k, w := 0, wpos;
      ghost var p0, done: seq<byte> := pkt[..], [];
      ghost var goal := Encode(suffix, wpos, wpos, name, 0);
      StartsAt(p0, wpos, suffix, name);
      while k < |name|
        invariant k <= |name| && w == wpos + |done| <= wpos + k + 1 && (k < |name| ==> w == wpos + k)
        invariant |suffix| <= MAX_SUFFIX && Kept(p0, pkt[..], wpos, wpos + |name| + 2)
        invariant Continues(pkt[..], wpos, done, suffix, name, k, goal)
      {
        ghost var p1 := pkt[..];
        var round, done' := EncodeLabel(wpos, w, name, k, done, goal);
        KeptWithin(p0, p1, pkt[..], wpos, wpos + |name| + 2, w, w + |name| - k + 1);
        done := done';
        if round.Finished? { return Some(w + 2); }
        if round.GaveUp? { return None; }
        w, k := w + 1 + DotFrom(name, k) - k, After(name, k);
      }
      EncodeRoot(wpos, w, name, done, p0, goal);
      return Some(w + 1);
    }

    /** The zero byte that ends a name. */
    method EncodeRoot(start: nat, w: nat, ghost name: seq<byte>, ghost done: seq<byte>, ghost p0: seq<byte>,
                      ghost goal: Encoded)
      requires w == start + |done| < pkt.Length && w <= start + |name| + 1
      requires Kept(p0, pkt[..], start, start + |name| + 2)
      requires Continues(pkt[..], start, done, suffix, name, |name|, goal)
      modifies pkt
      ensures Kept(p0, pkt[..], start, start + |name| + 2)
      ensures goal == Encoded(done + [0], suffix) && Written(pkt[..], start, done + [0])
    {
      ghost var p1 := pkt[..];
      Poke(w, [0]);
      KeptWithin(p0, p1, pkt[..], start, start + |name| + 2, w, w + 1);
      EndsWithRoot(p1, pkt[..], start, done, suffix, name, goal);
    }

    /** Reserve space at the end of the packet. */
    method MkSpace(len: nat) returns (at: Option<nat>)
      requires Valid()
      modifies this`pktLen
      ensures Valid() && (at.Some? <==> old(pktLen) + len <= pkt.Length)
      ensures at.Some? ==> at.value == old(pktLen) && pktLen == old(pktLen) + len
      ensures at.None? ==> pktLen == old(pktLen)
    {
      if pktLen + len > pkt.Length { return None; }
      at := Some(pktLen);
      pktLen := pktLen + len;
    }

    /** Give unused space back. */
    method RetSpace(len: nat) returns (ok: bool)
      requires Valid()
      modifies this`pktLen
      ensures Valid() && (ok <==> len <= old(pktLen))
      ensures pktLen == if ok then old(pktLen) - len else old(pktLen)
    {
      if len > pktLen { return false; }
      pktLen := pktLen - len;
      return true;
    }

    /** A name field: reserve the largest name, encode, return the rest. Returning never fails. */
    method AddNameField(name: seq<byte>) returns (ok: bool)
      requires Valid() && |name| <= NAME_MAXSTR
      modifies this, pkt
      ensures Valid() && old(pktLen) <= pktLen
      ensures ok ==> Some(State()) == ReserveName(old(State()), pkt.Length, name)
      ensures !ok ==> ReserveName(old(State()), pkt.Length, name).None?
    {
      ghost var e, p := State(), pkt[..];
      var at := MkSpace(NAME_MAXLEN);
      if at.None? { return false; }
      var end := EncodeName(at.value, name);
      if end.None? { return false; }
      ghost var bytes := Encode(e.table, |e.p|, |e.p|, name, 0).bytes;
      assert AddName(e, name) == Some(Enc(e.p + bytes, suffix));
      var used := end.value - at.value;
      var back := RetSpace(NAME_MAXLEN - used);
      assert pkt[..pktLen] == e.p + bytes by {
        PrefixGrown(p, pkt[..], |e.p|, bytes, |e.p| + |name| + 2);
        assert pkt[..pktLen] == pkt[..][..pktLen] && e.p == p[..|e.p|];
      }
      return back;
    }

    /** Raw bytes: reserve exactly, copy. */
    method AddMem(b: seq<byte>) returns (ok: bool)
      requires Valid()
      modifies this, pkt
      ensures Valid() && old(pktLen) <= pktLen
      ensures ok ==> Some(State()) == ReserveBytes(old(State()), pkt.Length, b)
      ensures !ok ==> ReserveBytes(old(State()), pkt.Length, b).None? && pktLen == old(pktLen)
    {
      ghost var e := State();
      var at := MkSpace(|b|);
      if at.None? { return false; }
      var o := at.value;
      forall i | 0 <= i < |b| { pkt[o + i] := b[i]; }
      assert pkt[..pktLen] == e.p + b;
      return true;
    }

    /** A name with fixed bytes after it: reserve for the largest name, encode, return the rest. */
    method AddNamed(name: seq<byte>, b: seq<byte>) returns (ok: bool)
      requires Valid() && |name| <= NAME_MAXSTR
      modifies this, pkt
      ensures Valid() && old(pktLen) <= pktLen
      ensures ok ==> Some(State()) == ReserveNamed(old(State()), pkt.Length, name, b)
      ensures !ok ==> ReserveNamed(old(State()), pkt.Length, name, b).None?
    {
      ghost var e, p := State(), pkt[..];
      var len := NAME_MAXLEN + |b|;
      var wbuf := MkSpace(len);
      if wbuf.None? { return false; }
      var end := EncodeName(wbuf.value, name);
      if end.None? { return false; }
      ghost var bytes, p1 := Encode(e.table, |e.p|, |e.p|, name, 0).bytes, pkt[..];
      assert AddName(e, name) == Some(Enc(e.p + bytes, suffix));
      Poke(end.value, b);
      var used := end.value + |b| - wbuf.value;
      ok := RetSpace(len - used);
      assert pkt[..pktLen] == e.p + bytes + b by {
        HeadGrown(p, p1, pkt[..], |e.p|, bytes, b, |e.p| + len);
        assert pkt[..pktLen] == pkt[..][..pktLen] && e.p == p[..|e.p|];
      }
    }

    /** A question. */
    method AddQuestion(name: seq<byte>, typ: u16, cls: u16) returns (ok: bool)
      requires Valid() && |name| <= NAME_MAXSTR
      modifies this, pkt
      ensures Valid() && old(pktLen) <= pktLen
      ensures ok ==> Some(State()) == AddItem(old(State()), pkt.Length, Question(name, typ, cls))
      ensures !ok ==> AddItem(old(State()), pkt.Length, Question(name, typ, cls)).None?
    {
      ok := AddNamed(name, EncU16(typ) + EncU16(cls));
    }

    /** Names and questions one after the other, well formed or not: the packet never outgrows its buffer, and no
        return of space fails. */
    method AddItems(items: seq<Item>) returns (n: nat)
      requires Valid() && forall i :: 0 <= i < |items| ==> |items[i].name| <= NAME_MAXSTR
      modifies this, pkt
      ensures Valid() && n <= |items|
      ensures n == |items| ==> Some(State()) == Items(old(State()), pkt.Length, items, n)
      ensures n < |items| ==> Items(old(State()), pkt.Length, items, n + 1).None?
    {
      ghost var e := State();
      n := 0;
      while n < |items|
        invariant Valid() && n <= |items| && Some(State()) == Items(e, pkt.Length, items, n)
      {
        var ok := AddOne(items[n]);
        if !ok { return; }
        n := n + 1;
      }
    }

    method AddOne(item: Item) returns (ok: bool)
      requires Valid() && |item.name| <= NAME_MAXSTR
      modifies this, pkt
      ensures Valid()
      ensures ok ==> Some(State()) == AddItem(old(State()), pkt.Length, item)
      ensures !ok ==> AddItem(old(State()), pkt.Length, item).None?
    {
      match item
      case Name(name) => ok := AddNameField(name);
      case Question(name, typ, cls) => ok := AddQuestion(name, typ, cls);
    }

    /** Name, type, class, ttl and a zero length; `at` is where the length stands. */
    method AddHead(r: Record) returns (at: Option<nat>)
      requires Valid() && |r.name| <= NAME_MAXSTR
      modifies this, pkt
      ensures Valid() && old(pktLen) <= pktLen
      ensures at.None? <==> old(pktLen) + NAME_MAXLEN + 10 > pkt.Length || AddName(old(State()), r.name).None?
      ensures at.Some? ==> State() == AddBytes(AddName(old(State()), r.name).value, Fixed(r)) && at.value + 2 == pktLen
    {
      var ok := AddNamed(r.name, Fixed(r));
      if !ok { return None; }
      assert |State().p| == pktLen && |State().p| >= |Fixed(r)|;
      var at': nat := pktLen - 2;
      return Some(at');
    }

    /** TXT strings, each with its length in front. */
    method AddTxt(strs: seq<seq<byte>>) returns (ok: bool)
      requires Valid()
      modifies this, pkt
      ensures Valid() && old(pktLen) <= pktLen
      ensures ok ==> Some(State()) == AddStrs(old(State()), pkt.Length, strs, 0)
      ensures !ok ==> AddStrs(old(State()), pkt.Length, strs, 0).None?
    {
      ghost var goal := AddStrs(State(), pkt.Length, strs, 0);
      for i := 0 to |strs|
        invariant Valid() && old(pktLen) <= pktLen && AddStrs(State(), pkt.Length, strs, i) == goal
      {
        ok := AddMem(Counted(strs[i]));
        if !ok { return; }
      }
      ok := true;
    }

    method AddSoa(d: RData) returns (ok: bool)
      requires Valid() && d.Soa? && |d.mname| <= NAME_MAXSTR && |d.rname| <= NAME_MAXSTR
      modifies this, pkt
      ensures Valid() && old(pktLen) <= pktLen
      ensures ok ==> Some(State()) == AddRData(old(State()), pkt.Length, d)
      ensures !ok ==> AddRData(old(State()), pkt.Length, d).None?
    {
      ok := AddNameField(d.mname);
      if !ok { return; }
      ok := AddNameField(d.rname);
      if !ok { return; }
      ok := AddMem(SoaInts(d));
    }

    method AddData(d: RData) returns (ok: bool)
      requires Valid() && ShortNames(d)
      modifies this, pkt
      ensures Valid() && old(pktLen) <= pktLen
      ensures ok ==> Some(State()) == AddRData(old(State()), pkt.Length, d)
      ensures !ok ==> AddRData(old(State()), pkt.Length, d).None?
    {
      match d
      case A(a) => ok := AddMem(a);
      case Aaaa(a) => ok := AddMem(a);
      case Ns(n) => ok := AddNameField(n);
      case Cname(n) => ok := AddNameField(n);
      case Ptr(n) => ok := AddNameField(n);
      case Soa(_, _, _, _, _, _, _) => ok := AddSoa(d);
      case Txt(strs) => ok := AddTxt(strs);
      case Empty => ok := true;
    }

    /** A record: head, data, and the data length written back where the head left room for it. */
    method AddRecordField(r: Record) returns (ok: bool)
      requires Valid() && |r.name| <= NAME_MAXSTR && ShortNames(r.rdata)
      modifies this, pkt
      ensures Valid()
      ensures ok ==> Some(State()) == AddRecord(old(State()), pkt.Length, r)
      ensures !ok ==> AddRecord(old(State()), pkt.Length, r).None?
    {
      var at := AddHead(r);
      if at.None? { return false; }
      var start := pktLen;
      ok := AddData(r.rdata);
      if !ok { return; }
      PatchLength(at.value, (pktLen - start) % 0x1_0000);
    }

    method PatchLength(at: nat, rdlen: u16)
      requires Valid() && at + 2 <= pktLen
      modifies pkt
      ensures Valid() && State() == old(State()).(p := Patch(old(State()).p, at, rdlen))
    {
      ghost var e, p := State(), pkt[..];
      Poke(at, EncU16(rdlen));
      PatchedPrefix(p, pkt[..], at, rdlen, pktLen);
      assert e.p == p[..pktLen] && pkt[..pktLen] == pkt[..][..pktLen];
    }
  }

  /** Strings that reach the encoder come from the message's string store. */
  predicate ShortNames(d: RData) {
    match d
    case Ns(n) => |n| <= NAME_MAXSTR
    case Cname(n) => |n| <= NAME_MAXSTR
    case Ptr(n) => |n| <= NAME_MAXSTR
    case Soa(m, r, _, _, _, _, _) => |m| <= NAME_MAXSTR && |r| <= NAME_MAXSTR
    case _ => true
  }

  lemma PatchedPrefix(p: seq<byte>, q: seq<byte>, at: nat, v: u16, n: nat)
    requires at + 2 <= n <= |p| && Kept(p, q, at, at + 2) && Written(q, at, EncU16(v))
    ensures q[..n] == Patch(p[..n], at, v)
  {
    var b := EncU16(v);
    assert q[at + 0] == b[0] && q[at + 1] == b[1];
  }

  class Decoder {
    const pkt: seq<byte>
    var offset: nat
    var used: nat     // bytes taken in the message's string store

    constructor (pkt: seq<byte>, offset: nat, used: nat)
      ensures this.pkt == pkt && this.offset == offset && this.used == used
    {
      this.pkt, this.offset, this.used := pkt, offset, used;
    }

    /** Decode the name at the offset: the text, and the offset moved past the name, or an error. */
    method DecodeName(nlen: nat) returns (r: Tail)
      modifies this`offset
      ensures r == Decode(pkt, old(offset), 0, nlen)
      ensures r.Text? ==> offset == old(offset) + r.adv <= |pkt|
    {
      var start: nat, idx: nat, njmp: nat, room: nat := offset, offset, 0, nlen;
      var text: seq<byte> := [];
      ghost var goal := Decode(pkt, offset, 0, nlen);
      ghost var adv: nat := 0;
      FromStart(pkt, offset, 0, nlen, goal);
      var done: Option<Tail> := None;
      while done.None?
        invariant njmp <= MAX_JMP + 1 && (done.None? ==> offset == start + adv) && start == old(offset)
        invariant done.None? ==> Resumes(pkt, idx, njmp, room, text, adv, goal)
        invariant done.Some? ==> done.value == goal && (goal.Text? ==> offset == start + goal.adv)
        decreases done.None?, MAX_JMP + 1 - njmp, |pkt| - idx
      {
        done, idx, njmp, room, text, adv := DecodeRound(start, idx, njmp, room, text, adv, goal);
      }
      return done.value;
    }

    /** One label, one jump, or the end of the name. */
    method DecodeRound(start: nat, idx: nat, njmp: nat, room: nat, text: seq<byte>, ghost adv: nat, ghost goal: Tail)
      returns (done: Option<Tail>, idx': nat, njmp': nat, room': nat, text': seq<byte>, ghost adv': nat)
      requires njmp <= MAX_JMP + 1 && offset == start + adv && Resumes(pkt, idx, njmp, room, text, adv, goal)
      modifies this`offset
      ensures done.Some? ==> done.value == goal && (goal.Text? ==> offset == start + goal.adv)
      ensures njmp <= njmp' <= MAX_JMP + 1
      ensures done.None? ==> offset == start + adv' && Resumes(pkt, idx', njmp', room', text', adv', goal)
      ensures done.None? ==> njmp < njmp' || idx < idx' <= |pkt|
    {
      done, idx', njmp', room', text', adv' := None, idx, njmp, room, text, adv;
      match HeadAt(pkt, idx, njmp, room)
      case Fail(e) =>
        ResumesNot(pkt, idx, njmp, room, text, adv, e, goal);
        done := Some(Bad(e));
      case End =>
        ResumesNever(pkt, idx, njmp, room, text, adv, goal);
        if njmp == 0 { offset := offset + 1; }
        done := Some(Text(text, offset - start));
      case Jump(target) =>
        ResumesAt(pkt, idx, njmp, room, text, adv, target, goal);
        adv' := adv + if njmp == 0 then 2 else 0;
        if njmp == 0 { offset := offset + 2; }
        njmp', idx' := njmp + 1, target;
      case Label(len, dot) =>
        ResumesAfter(pkt, idx, njmp, room, text, adv, len, dot, goal);
        adv' := adv + if njmp == 0 then 1 + len else 0;
        if njmp == 0 { offset := offset + 1 + len; }
        text' := text + Piece(pkt, idx + 1, len) + dot;
        idx', room' := idx + 1 + len, room - len - |dot|;
    }

    /** A name, the root shown as a dot. */
    method NextName(room: nat) returns (r: Result<seq<byte>>)
      modifies this`offset
      ensures match ReadName(pkt, old(offset), room)
              case Err(e) => r == Err(e)
              case Ok((t, next)) => r == Ok(t) && offset == next
    {
      var t := DecodeName(room);
      match t
      case Bad(e) => return Err(NameErr(e));
      case Text(s, _) =>
        if s != [] { return Ok(s); }
        if room < 2 { return Err(NoSpace); }
        return Ok([DOT]);
    }

    /** A name kept in the string store; `len` is its length in the scratch buffer. */
    method NextStored(room: nat) returns (r: Result<(seq<byte>, nat)>)
      modifies this
      ensures match ReadStored(pkt, old(offset), room, old(used))
              case Err(e) => r == Err(e)
              case Ok((s, next, used', len)) => r == Ok((s, len)) && offset == next && used == used'
    {
      var t := NextName(room);
      if t.Err? { return Err(t.error); }
      var s := CStr(t.value);
      var u := Store(used, s);
      if u.None? { return Err(NoSpace); }
      used := u.value;
      return Ok((s, |t.value|));
    }

    /** TXT strings up to the end of the data. */
    method NextStrs(end: nat) returns (r: Result<RData>)
      requires end <= |pkt|
      modifies this
      ensures match ReadStrs(pkt, old(offset), end, old(used), [])
              case Err(e) => r == Err(e)
              case Ok(b) => r == Ok(b.rdata) && offset == b.next && used == b.used
    {
      var strs: seq<seq<byte>> := [];
      ghost var goal := ReadStrs(pkt, offset, end, used, []);
      while offset < end
        invariant ReadStrs(pkt, offset, end, used, strs) == goal
        decreases end - offset
      {
        var len: nat := pkt[offset] as int;
        if offset + 1 + len > end { return Err(RdataLen); }
        if |strs| >= MAX_TXT { return Err(NoSpace); }
        var s := Piece(pkt, offset + 1, len);
        var u := Store(used, s);
        if u.None? { return Err(NoSpace); }
        strs, used, offset := strs + [s], u.value, offset + 1 + len;
      }
      return Ok(Txt(strs));
    }

    /** Two names and five integers. */
    method NextSoa(end: nat, room: nat) returns (r: Result<RData>)
      requires end <= |pkt|
      modifies this
      ensures Agrees(r, ReadSoa(pkt, old(offset), end, room, old(used)))
    {
      var m := NextStored(room);
      if m.Err? { return Err(m.error); }
      var (mname, len) := m.value;
      var t := NextName(if len <= room then room - len else 0);
      if t.Err? { return Err(t.error); }
      r := NextInts(mname, CStr(t.value), end);
    }

    /** The second name stored, if it fits, and the five integers. */
    method NextInts(mname: seq<byte>, name: seq<byte>, end: nat) returns (r: Result<RData>)
      requires end <= |pkt|
      modifies this
      ensures Agrees(r, SoaRest(pkt, mname, name, old(offset), end, old(used)))
    {
      var rname := name;
      if offset + 20 > end { return Err(RdataLen); }
      var stored := Store(used, rname);
      if stored.Some? { used := stored.value; } else { rname := []; }
      var o := offset;
      offset := offset + 20;
      return Ok(Soa(mname, rname, DecU32(pkt, o), DecU32(pkt, o + 4), DecU32(pkt, o + 8), DecU32(pkt, o + 12),
                    DecU32(pkt, o + 16)));
    }

    /** The result of a read is what the function says, and the decoder stands where it says. */
    ghost predicate Agrees(r: Result<RData>, want: Result<Body>)
      reads this
    {
      match want
      case Err(e) => r == Err(e)
      case Ok(b) => r == Ok(b.rdata) && offset == b.next && used == b.used
    }

    /** A record's data, by its type. */
    method NextData(typ: u16, rdlen: nat, end: nat, room: nat) returns (r: Result<RData>)
      requires offset <= |pkt| < 0xFFF0 && end == (offset + rdlen) % 0x1_0000 <= |pkt|
      modifies this
      ensures Agrees(r, ReadRData(pkt, typ, old(offset), rdlen, end, room, old(used)))
    {
      if typ == TYPE_A {
        if rdlen != 4 { return Err(RdataLen); }
        r := Ok(A(Piece(pkt, offset, 4)));
        offset := offset + 4;
      } else if typ == TYPE_AAAA {
        if rdlen != 16 { return Err(RdataLen); }
        r := Ok(Aaaa(Piece(pkt, offset, 16)));
        offset := offset + 16;
      } else if typ in {TYPE_NS, TYPE_CNAME, TYPE_PTR} {
        var n := NextStored(room);
        if n.Err? { return Err(n.error); }
        var name := n.value.0;
        r := Ok(if typ == TYPE_NS then Ns(name) else if typ == TYPE_CNAME then Cname(name) else Ptr(name));
      } else if typ == TYPE_SOA {
        r := NextSoa(end, room);
      } else if typ == TYPE_TXT {
        r := NextStrs(end);
      } else if typ in UNMODELLED {
        r := Err(Unmodelled);
      } else {
        r := Ok(Empty);
        offset := offset + rdlen;
      }
    }

    /** What follows a record's name, of which `len` bytes stand in the scratch buffer. */
    method AfterName(name: seq<byte>, len: nat) returns (r: Result<Record>)
      requires |pkt| < 0xFFF0
      modifies this
      ensures match ReadAfterName(pkt, name, len, old(offset), old(used))
              case Err(e) => r == Err(e)
              case Ok(p) => r == Ok(p.record) && offset == p.next && used == p.used
    {
      if offset + 10 > |pkt| { return Err(Truncated); }
      var o := offset;
      var head := Record(name, DecU16(pkt, o), DecU16(pkt, o + 2), DecU32(pkt, o + 4), Empty);
      var rdlen := DecU16(pkt, o + 8);
      offset := o + 10;
      r := AfterHead(head, rdlen, if len < MSG_BUF then MSG_BUF - (len + 1) else 0);
    }

    /** The data, of `rdlen` bytes. */
    method AfterHead(head: Record, rdlen: nat, room: nat) returns (r: Result<Record>)
      requires offset <= |pkt| < 0xFFF0
      modifies this
      ensures match ReadAfterHead(pkt, head, rdlen, old(offset), room, old(used))
              case Err(e) => r == Err(e)
              case Ok(p) => r == Ok(p.record) && offset == p.next && used == p.used
    {
      var end := (offset + rdlen) % 0x1_0000;
      if end > |pkt| { return Err(Truncated); }
      var d := NextData(head.typ, rdlen, end, room);
      if d.Err? { return Err(d.error); }
      if offset != end { return Err(RdataLen); }
      return Ok(head.(rdata := d.value));
    }

    /** `dns_rr_decode`: the record at the offset, and the offset moved to the next. */
    method NextRecord() returns (r: Result<Record>)
      requires |pkt| < 0xFFF0
      modifies this
      ensures match ReadRecord(pkt, old(offset), old(used))
              case Err(e) => r == Err(e)
              case Ok(p) => r == Ok(p.record) && offset == p.next && used == p.used
    {
      var n := NextStored(MSG_BUF);
      if n.Err? { return Err(n.error); }
      r := AfterName(n.value.0, n.value.1);
    }
  }

  /** The decoding loop at a point on its way to `goal`: `text` is written and the offset has moved by `adv`. */
  ghost predicate Resumes(pkt: seq<byte>, idx: nat, njmp: nat, room: nat, text: seq<byte>, adv: nat, goal: Tail)
    requires njmp <= MAX_JMP + 1
  {
    goal == Prepend(text, adv, Decode(pkt, idx, njmp, room))
  }

  lemma FromStart(pkt: seq<byte>, idx: nat, njmp: nat, room: nat, goal: Tail)
    requires njmp <= MAX_JMP + 1 && goal == Decode(pkt, idx, njmp, room)
    ensures Resumes(pkt, idx, njmp, room, [], 0, goal)
  {
    if goal.Text? { assert [] + goal.text == goal.text; }
  }

  lemma ResumesNot(pkt: seq<byte>, idx: nat, njmp: nat, room: nat, text: seq<byte>, adv: nat, e: NameError, goal: Tail)
    requires njmp <= MAX_JMP + 1 && HeadAt(pkt, idx, njmp, room) == Fail(e)
    requires Resumes(pkt, idx, njmp, room, text, adv, goal)
    ensures goal == Bad(e)
  {
  }

  lemma ResumesNever(pkt: seq<byte>, idx: nat, njmp: nat, room: nat, text: seq<byte>, adv: nat, goal: Tail)
    requires njmp <= MAX_JMP + 1 && HeadAt(pkt, idx, njmp, room) == End
    requires Resumes(pkt, idx, njmp, room, text, adv, goal)
    ensures goal == Text(text, adv + if njmp == 0 then 1 else 0)
  {
    assert text + [] == text;
  }

  lemma ResumesAt(pkt: seq<byte>, idx: nat, njmp: nat, room: nat, text: seq<byte>, adv: nat, t: nat, goal: Tail)
    requires njmp <= MAX_JMP && HeadAt(pkt, idx, njmp, room) == Jump(t)
    requires Resumes(pkt, idx, njmp, room, text, adv, goal)
    ensures Resumes(pkt, t, njmp + 1, room, text, adv + if njmp == 0 then 2 else 0, goal)
  {
  }

  lemma ResumesAfter(pkt: seq<byte>, idx: nat, njmp: nat, room: nat, text: seq<byte>, adv: nat, len: nat,
                     dot: seq<byte>, goal: Tail)
    requires njmp <= MAX_JMP + 1 && HeadAt(pkt, idx, njmp, room) == Label(len, dot)
    requires Resumes(pkt, idx, njmp, room, text, adv, goal)
    ensures Resumes(pkt, idx + 1 + len, njmp, room - len - |dot|, text + Piece(pkt, idx + 1, len) + dot,
                    adv + if njmp == 0 then 1 + len else 0, goal)
  {
    PrependTwice(text, adv, Piece(pkt, idx + 1, len), dot, if njmp == 0 then 1 + len else 0,
                 Decode(pkt, idx + 1 + len, njmp, room - len - |dot|));
  }

  lemma PrependTwice(text: seq<byte>, adv: nat, piece: seq<byte>, dot: seq<byte>, n: nat, t: Tail)
    ensures Prepend(text, adv, Prepend(piece + dot, n, t)) == Prepend(text + piece + dot, adv + n, t)
  {
    if t.Text? {
      assert text + (piece + dot + t.text) == text + piece + dot + t.text;
    }
  }
}
