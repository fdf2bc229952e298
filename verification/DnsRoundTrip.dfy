/** Decoding undoes encoding for records of types A, AAAA, NS, CNAME, PTR, SOA, TXT and those without
    data, and for runs of them, exactly as far as the string store has room for their names. */
module DnsRoundTrip {
  import opened Bytes
  import opened DnsName
  import opened DnsWire
  import opened DnsRecord

  predicate GoodName(n: seq<byte>) {
    WellFormed(n, 0) && |n| <= NAME_MAXSTR && Labels(n, 0) <= MAX_JMP + 1 && 0 !in n
  }

  predicate GoodData(d: RData) {
    match d
    case Ns(n) => GoodName(n)
    case Cname(n) => GoodName(n)
    case Ptr(n) => GoodName(n)
    case Soa(m, r, _, _, _, _, _) => GoodName(m) && GoodName(r)
    case Txt(strs) => |strs| <= MAX_TXT && forall i :: 0 <= i < |strs| ==> |strs[i]| <= NAME_MAXSTR && 0 !in strs[i]
    case _ => true
  }

  /** A name came back: equal up to case, the root as a dot. */
  predicate NameBack(got: seq<byte>, name: seq<byte>) {
    if name == [] then got == [DOT] else Reads(got, name, 0)
  }

  predicate DataBack(got: RData, d: RData) {
    match d
    case Ns(n) => got.Ns? && NameBack(got.name, n)
    case Cname(n) => got.Cname? && NameBack(got.name, n)
    case Ptr(n) => got.Ptr? && NameBack(got.name, n)
    case Soa(m, r, _, _, _, _, _) =>
      got.Soa? && NameBack(got.mname, m) && NameBack(got.rname, r) && got == d.(mname := got.mname, rname := got.rname)
    case _ => got == d
  }

  predicate RecordBack(got: Record, r: Record) {
    NameBack(got.name, r.name) && DataBack(got.rdata, r.rdata) && got == r.(name := got.name, rdata := got.rdata)
  }

  // ---- room in the string store ----

  function NameNeed(n: seq<byte>): nat {
    if n == [] then 2 else |n| + 1
  }

  function StrsNeed(strs: seq<seq<byte>>, i: nat): nat
    requires i <= |strs|
    decreases |strs| - i
  {
    if i == |strs| then 0 else |strs[i]| + 1 + StrsNeed(strs, i + 1)
  }

  function DataNeed(d: RData): nat {
    match d
    case Ns(n) => NameNeed(n)
    case Cname(n) => NameNeed(n)
    case Ptr(n) => NameNeed(n)
    case Soa(m, r, _, _, _, _, _) => NameNeed(m) + NameNeed(r)
    case Txt(strs) => StrsNeed(strs, 0)
    case _ => 0
  }

  /** The store after `need` more bytes, if there is room for them. */
  function Fit(used: nat, need: nat): Option<nat> {
    if used + need <= NAMES_MAX then Some(used + need) else None
  }

  // ---- names inside records ----

  lemma NoZeroIn(t: seq<byte>, name: seq<byte>)
    requires Reads(t, name, 0) && 0 !in name
    ensures CStr(t) == t
  {
    assert forall i :: 0 <= i < |t| ==> LowerByte(t[i]) == LowerByte(name[0 + i]) && name[i] in name;
  }

  /** A name of a record was read: it came back, ends at `next`, and fits the store if there is room for it. */
  ghost predicate NameRead(r: Result<(seq<byte>, nat)>, name: seq<byte>, next: nat, used: nat) {
    && r.Ok? && NameBack(r.value.0, name) && r.value.1 == next
    && CStr(r.value.0) == r.value.0 && |r.value.0| <= NAME_MAXSTR
    && Store(used, r.value.0) == Fit(used, NameNeed(name))
  }

  /** Reading and storing a name spelled in the packet. */
  lemma StoredNameBack(p: seq<byte>, q: seq<byte>, off: nat, name: seq<byte>, f: set<nat>, room: nat, used: nat)
    requires NameAt(p, off, name, 0, f) && Agree(p, q, f) && GoodName(name)
    requires NAME_MAXLEN <= room
    ensures NameRead(ReadName(q, off, room), name, off + Span(p, off, name, 0, f), used)
  {
    NameReadsBack(p, q, off, name, f, room);
    var d := Decode(q, off, 0, room);
    TextStored(ReadName(q, off, room), d.text, name, off + d.adv, used);
  }

  lemma TextStored(r: Result<(seq<byte>, nat)>, t: seq<byte>, name: seq<byte>, next: nat, used: nat)
    requires r == Ok((if t != [] then t else [DOT], next)) && Reads(t, name, 0) && 0 !in name && |name| <= NAME_MAXSTR
    ensures NameRead(r, name, next, used)
  {
    NoZeroIn(t, name);
    assert CStr([DOT]) == [DOT];
  }

  // ---- fields of a record ----

  /** `q` continues `p`. */
  ghost predicate Extends(p: seq<byte>, q: seq<byte>) {
    |p| <= |q| && forall i :: 0 <= i < |p| ==> q[i] == p[i]
  }

  /** From `e` to `e'` the packet only grew, and stayed sound with the new bytes added to `f`. */
  ghost predicate Grown(e: Enc, e': Enc, f: set<nat>) {
    Extends(e.p, e'.p) && Sound(e', f + Range(|e.p|, |e'.p|))
  }

  /** What a packet keeps of an extension it keeps of the shorter packet. */
  lemma AgreeVia(p: seq<byte>, p': seq<byte>, q: seq<byte>, f: set<nat>, g: set<nat>)
    requires Extends(p, p') && Agree(p', q, g) && f <= g
    ensures Agree(p, q, f)
  {
  }

  lemma GrownTwice(e: Enc, e1: Enc, e2: Enc, f: set<nat>)
    requires Grown(e, e1, f) && Grown(e1, e2, f + Range(|e.p|, |e1.p|))
    ensures Grown(e, e2, f) && f + Range(|e.p|, |e2.p|) == f + Range(|e.p|, |e1.p|) + Range(|e1.p|, |e2.p|)
  {
    assert f + Range(|e.p|, |e2.p|) == f + Range(|e.p|, |e1.p|) + Range(|e1.p|, |e2.p|);
  }

  /** From `e` to `e'` a name was appended. */
  ghost predicate Placed(e: Enc, e': Enc, f: set<nat>, name: seq<byte>) {
    var g := f + Range(|e.p|, |e'.p|);
    Grown(e, e', f) && NameAt(e'.p, |e.p|, name, 0, g) && Span(e'.p, |e.p|, name, 0, g) == |e'.p| - |e.p|
  }

  /** Appending a name. */
  lemma NameField(e: Enc, f: set<nat>, name: seq<byte>)
    requires Sound(e, f) && GoodName(name) && AddName(e, name).Some? && |AddName(e, name).value.p| <= PTR_LIMIT
    ensures Placed(e, AddName(e, name).value, f, name)
  {
    AddNameOk(e, f, name);
  }

  /** A name field read back from a packet that keeps its bytes. */
  lemma NameFieldBack(e: Enc, e': Enc, f: set<nat>, name: seq<byte>, q: seq<byte>, room: nat, used: nat)
    requires Placed(e, e', f, name) && GoodName(name) && Agree(e'.p, q, f + Range(|e.p|, |e'.p|))
    requires NAME_MAXLEN <= room
    ensures NameRead(ReadName(q, |e.p|, room), name, |e'.p|, used)
  {
    StoredNameBack(e'.p, q, |e.p|, name, f + Range(|e.p|, |e'.p|), room, used);
  }

  /** Appending bytes. */
  lemma BytesField(e: Enc, f: set<nat>, b: seq<byte>)
    requires Sound(e, f)
    ensures Grown(e, AddBytes(e, b), f)
  {
    var e' := AddBytes(e, b);
    SoundFrame(e, e'.p, f, f + Range(|e.p|, |e'.p|));
  }

  /** Bytes appended are in place in any packet that keeps them. */
  lemma BytesFieldBack(e: Enc, f: set<nat>, b: seq<byte>, q: seq<byte>)
    requires Agree(AddBytes(e, b).p, q, f + Range(|e.p|, |e.p| + |b|)) && |e.p| + |b| <= |q|
    ensures Written(q, |e.p|, b)
  {
    var g := f + Range(|e.p|, |e.p| + |b|);
    forall i | 0 <= i < |b|
      ensures q[|e.p| + i] == b[i]
    {
      assert |e.p| + i in g && AddBytes(e, b).p[|e.p| + i] == b[i];
    }
  }

  // ---- data ----

  lemma {:induction false} StrsField(e: Enc, f: set<nat>, max: nat, strs: seq<seq<byte>>, i: nat)
    requires i <= |strs| && Sound(e, f) && AddStrs(e, max, strs, i).Some?
    ensures Grown(e, AddStrs(e, max, strs, i).value, f)
    decreases |strs| - i
  {
    if i == |strs| {
      assert f + Range(|e.p|, |e.p|) == f;
    } else {
      var e1 := AddBytes(e, Counted(strs[i]));
      BytesField(e, f, Counted(strs[i]));
      StrsField(e1, f + Range(|e.p|, |e1.p|), max, strs, i + 1);
      GrownTwice(e, e1, AddStrs(e, max, strs, i).value, f);
    }
  }

  /** A counted string in place in the packet. */
  lemma CountedBack(e: Enc, f: set<nat>, s: seq<byte>, q: seq<byte>)
    requires |s| < 256 && Agree(AddBytes(e, Counted(s)).p, q, f + Range(|e.p|, |e.p| + 1 + |s|))
    requires |e.p| + 1 + |s| <= |q|
    ensures q[|e.p|] == |s| && Piece(q, |e.p| + 1, |s|) == s
  {
    assert Written(q, |e.p|, [|s| as byte] + s) by { BytesFieldBack(e, f, Counted(s), q); }
    CountedAt(q, |e.p|, |s| as byte, s);
  }

  lemma CountedAt(q: seq<byte>, o: nat, n: byte, s: seq<byte>)
    requires Written(q, o, [n] + s)
    ensures q[o] == n && Piece(q, o + 1, |s|) == s
  {
    WrittenSplit(q, o, [n], s);
    WrittenPiece(q, o + 1, s);
    assert q[o + 0] == [n][0];
  }

  lemma {:induction false} StrsBack(e: Enc, f: set<nat>, max: nat, strs: seq<seq<byte>>, i: nat, q: seq<byte>,
                                    used: nat)
    requires i <= |strs| <= MAX_TXT && Sound(e, f) && AddStrs(e, max, strs, i).Some?
    requires var e' := AddStrs(e, max, strs, i).value;
             |e'.p| <= |q| && Agree(e'.p, q, f + Range(|e.p|, |e'.p|))
    requires used <= NAMES_MAX && forall j :: 0 <= j < |strs| ==> |strs[j]| <= NAME_MAXSTR
    ensures var end := |AddStrs(e, max, strs, i).value.p|;
            ReadStrs(q, |e.p|, end, used, strs[..i])
            == match Fit(used, StrsNeed(strs, i)) case Some(u) => Ok(Body(Txt(strs), end, u)) case None => Err(NoSpace)
    decreases |strs| - i
  {
    if i == |strs| {
      assert strs[..i] == strs;
    } else {
      var e1, s := AddBytes(e, Counted(strs[i])), strs[i];
      var g := f + Range(|e.p|, |e1.p|);
      StrsSplit(e, f, max, strs, i, q);
      CountedBack(e, f, s, q);
      if used + |s| + 1 <= NAMES_MAX { StrsBack(e1, g, max, strs, i + 1, q, used + |s| + 1); }
      assert strs[..i] + [s] == strs[..i + 1];
    }
  }

  lemma StrsSplit(e: Enc, f: set<nat>, max: nat, strs: seq<seq<byte>>, i: nat, q: seq<byte>)
    requires i < |strs| && Sound(e, f) && AddStrs(e, max, strs, i).Some?
    requires var e' := AddStrs(e, max, strs, i).value;
             |e'.p| <= |q| && Agree(e'.p, q, f + Range(|e.p|, |e'.p|))
    ensures var e1 := AddBytes(e, Counted(strs[i]));
            var e' := AddStrs(e, max, strs, i).value;
            var g := f + Range(|e.p|, |e1.p|);
            && AddStrs(e1, max, strs, i + 1) == Some(e') && |e1.p| <= |e'.p| && Sound(e1, g)
            && Agree(e1.p, q, g) && Agree(e'.p, q, g + Range(|e1.p|, |e'.p|))
  {
    var e1 := AddBytes(e, Counted(strs[i]));
    var e' := AddStrs(e, max, strs, i).value;
    var g := f + Range(|e.p|, |e1.p|);
    BytesField(e, f, Counted(strs[i]));
    StrsField(e1, g, max, strs, i + 1);
    GrownTwice(e, e1, e', f);
    AgreeVia(e1.p, e'.p, q, g, f + Range(|e.p|, |e'.p|));
  }

  /** The stages of appending a SOA record's data. */
  ghost predicate SoaPlaced(e: Enc, e1: Enc, e2: Enc, e3: Enc, f: set<nat>, d: RData)
    requires d.Soa?
  {
    && Placed(e, e1, f, d.mname) && Placed(e1, e2, f + Range(|e.p|, |e1.p|), d.rname)
    && e3 == AddBytes(e2, SoaInts(d)) && Extends(e1.p, e3.p) && Extends(e2.p, e3.p)
  }

  lemma SoaField(e: Enc, f: set<nat>, max: nat, d: RData) returns (e1: Enc, e2: Enc)
    requires Sound(e, f) && d.Soa? && GoodData(d) && AddRData(e, max, d).Some?
    requires |AddRData(e, max, d).value.p| <= PTR_LIMIT
    ensures SoaPlaced(e, e1, e2, AddRData(e, max, d).value, f, d)
    ensures Grown(e, AddRData(e, max, d).value, f)
  {
    e1 := AddName(e, d.mname).value;
    e2 := AddName(e1, d.rname).value;
    var e3 := AddBytes(e2, SoaInts(d));
    NameField(e, f, d.mname);
    NameField(e1, f + Range(|e.p|, |e1.p|), d.rname);
    GrownTwice(e, e1, e2, f);
    BytesField(e2, f + Range(|e.p|, |e2.p|), SoaInts(d));
    GrownTwice(e, e2, e3, f);
  }

  /** Appending data keeps the packet sound. */
  lemma DataField(e: Enc, f: set<nat>, max: nat, d: RData)
    requires Sound(e, f) && GoodData(d) && AddRData(e, max, d).Some? && |AddRData(e, max, d).value.p| <= PTR_LIMIT
    ensures Grown(e, AddRData(e, max, d).value, f)
  {
    match d
    case A(a) => BytesField(e, f, a);
    case Aaaa(a) => BytesField(e, f, a);
    case Ns(n) => NameField(e, f, n);
    case Cname(n) => NameField(e, f, n);
    case Ptr(n) => NameField(e, f, n);
    case Soa(_, _, _, _, _, _, _) => var _, _ := SoaField(e, f, max, d);
    case Txt(strs) => StrsField(e, f, max, strs, 0);
    case Empty => assert f + Range(|e.p|, |e.p|) == f;
  }

  /** Five integers after the names. */
  lemma SoaIntsBack(q: seq<byte>, o: nat, d: RData)
    requires d.Soa? && Written(q, o, SoaInts(d))
    ensures DecU32(q, o) == d.serial && DecU32(q, o + 4) == d.refresh && DecU32(q, o + 8) == d.retry
    ensures DecU32(q, o + 12) == d.expire && DecU32(q, o + 16) == d.minTtl
  {
    var b1 := EncU32(d.serial) + EncU32(d.refresh);
    var b2 := b1 + EncU32(d.retry);
    var b3 := b2 + EncU32(d.expire);
    WrittenSplit(q, o, b3, EncU32(d.minTtl));
    WrittenSplit(q, o, b2, EncU32(d.expire));
    WrittenSplit(q, o, b1, EncU32(d.retry));
    WrittenSplit(q, o, EncU32(d.serial), EncU32(d.refresh));
    WrittenU32(q, o, d.serial);
    WrittenU32(q, o + 4, d.refresh);
    WrittenU32(q, o + 8, d.retry);
    WrittenU32(q, o + 12, d.expire);
    WrittenU32(q, o + 16, d.minTtl);
  }

  lemma WrittenU32(q: seq<byte>, o: nat, v: u32)
    requires Written(q, o, EncU32(v))
    ensures o + 4 <= |q| && DecU32(q, o) == v
  {
    U32ReadBack(q, o, v);
  }

  /** What reading data at `off` should give: the data, its end, the string store in use. */
  ghost predicate BodyBack(r: Result<Body>, d: RData, end: nat, used: nat) {
    r.Ok? && DataBack(r.value.rdata, d) && r.value.next == end && r.value.used == used
  }

  /** A SOA record's data came back without its second name. */
  predicate SoaLost(got: RData, d: RData) {
    d.Soa? && got.Soa? && NameBack(got.mname, d.mname) && got == d.(mname := got.mname, rname := [])
  }

  /** What reading data gives, with `used` bytes of the store taken: the data, if there is room for its names; a SOA
      record's data without its second name, if there is room for the first only; an error otherwise. */
  ghost predicate BodyRead(r: Result<Body>, d: RData, end: nat, used: nat) {
    if used + DataNeed(d) <= NAMES_MAX then BodyBack(r, d, end, used + DataNeed(d))
    else if d.Soa? && used + NameNeed(d.mname) <= NAMES_MAX then
      r.Ok? && SoaLost(r.value.rdata, d) && r.value.next == end && r.value.used == used + NameNeed(d.mname)
    else r == Err(NoSpace)
  }

  lemma SoaRestBack(q: seq<byte>, m: seq<byte>, r: seq<byte>, o: nat, used: nat, d: RData)
    requires d.Soa? && Written(q, o, SoaInts(d)) && NameBack(m, d.mname) && NameBack(r, d.rname)
    requires Store(used, r) == Fit(used, NameNeed(d.rname))
    ensures var b := SoaRest(q, m, r, o, o + 20, used);
            if used + NameNeed(d.rname) <= NAMES_MAX then BodyBack(b, d, o + 20, used + NameNeed(d.rname))
            else b.Ok? && SoaLost(b.value.rdata, d) && b.value.next == o + 20 && b.value.used == used
  {
    SoaIntsBack(q, o, d);
  }

  lemma SoaAssembled(q: seq<byte>, off: nat, o1: nat, o2: nat, room: nat, used: nat, d: RData,
                     m: Result<(seq<byte>, nat)>, r: Result<(seq<byte>, nat)>)
    requires d.Soa? && 2 * NAME_MAXLEN <= room && Written(q, o2, SoaInts(d))
    requires NameRead(m, d.mname, o1, used) && NameRead(r, d.rname, o2, used + NameNeed(d.mname))
    requires m == ReadName(q, off, room) && r == ReadName(q, o1, room - |m.value.0|)
    ensures BodyRead(ReadSoa(q, off, o2 + 20, room, used), d, o2 + 20, used)
  {
    var used' := used + NameNeed(d.mname);
    SoaStored(q, off, o1, o2, o2 + 20, room, used, d.mname, d.rname, m, r);
    if used' <= NAMES_MAX { SoaRestBack(q, m.value.0, r.value.0, o2, used', d); }
  }

  /** The first name is stored, or the record refused. */
  lemma SoaStored(q: seq<byte>, off: nat, o1: nat, o2: nat, end: nat, room: nat, used: nat, mname: seq<byte>,
                  rname: seq<byte>, m: Result<(seq<byte>, nat)>, r: Result<(seq<byte>, nat)>)
    requires end <= |q| && 2 * NAME_MAXLEN <= room
    requires NameRead(m, mname, o1, used) && NameRead(r, rname, o2, used + NameNeed(mname))
    requires m == ReadName(q, off, room) && r == ReadName(q, o1, room - |m.value.0|)
    ensures ReadSoa(q, off, end, room, used)
            == if used + NameNeed(mname) > NAMES_MAX then Err(NoSpace)
               else SoaRest(q, m.value.0, r.value.0, o2, end, used + NameNeed(mname))
  {
  }

  lemma RangesJoin(f: set<nat>, a: nat, b: nat, c: nat, d: nat)
    requires a <= b <= c <= d
    ensures f + Range(a, b) + Range(b, c) + Range(c, d) == f + Range(a, d)
  {
  }

  lemma SoaNamesBack(e: Enc, e1: Enc, e2: Enc, e3: Enc, f: set<nat>, d: RData, q: seq<byte>, room: nat, used: nat)
    requires d.Soa? && GoodData(d) && SoaPlaced(e, e1, e2, e3, f, d)
    requires |e3.p| <= |q| && Agree(e3.p, q, f + Range(|e.p|, |e3.p|))
    requires 2 * NAME_MAXLEN <= room
    ensures var m := ReadName(q, |e.p|, room);
            && NameRead(m, d.mname, |e1.p|, used) && |m.value.0| <= room
            && NameRead(ReadName(q, |e1.p|, room - |m.value.0|), d.rname, |e2.p|, used + NameNeed(d.mname))
  {
    var g1 := f + Range(|e.p|, |e1.p|);
    var g2 := g1 + Range(|e1.p|, |e2.p|);
    var g3 := f + Range(|e.p|, |e3.p|);
    AgreeVia(e1.p, e3.p, q, g1, g3);
    AgreeVia(e2.p, e3.p, q, g2, g3);
    NameFieldBack(e, e1, f, d.mname, q, room, used);
    var m := ReadName(q, |e.p|, room);
    NameFieldBack(e1, e2, g1, d.rname, q, room - |m.value.0|, used + NameNeed(d.mname));
  }

  lemma SoaBack(e: Enc, e1: Enc, e2: Enc, e3: Enc, f: set<nat>, d: RData, q: seq<byte>, room: nat, used: nat)
    requires d.Soa? && GoodData(d) && SoaPlaced(e, e1, e2, e3, f, d)
    requires |e3.p| <= |q| && Agree(e3.p, q, f + Range(|e.p|, |e3.p|))
    requires 2 * NAME_MAXLEN <= room
    ensures BodyRead(ReadSoa(q, |e.p|, |e3.p|, room, used), d, |e3.p|, used)
  {
    SoaNamesBack(e, e1, e2, e3, f, d, q, room, used);
    var m := ReadName(q, |e.p|, room);
    assert Written(q, |e2.p|, SoaInts(d)) && |e3.p| == |e2.p| + 20 by {
      RangesJoin(f, |e.p|, |e1.p|, |e2.p|, |e3.p|);
      BytesFieldBack(e2, f + Range(|e.p|, |e1.p|) + Range(|e1.p|, |e2.p|), SoaInts(d), q);
    }
    SoaAssembled(q, |e.p|, |e1.p|, |e2.p|, room, used, d, m, ReadName(q, |e1.p|, room - |m.value.0|));
  }

  lemma NameDataBack(e: Enc, f: set<nat>, name: seq<byte>, q: seq<byte>, room: nat, used: nat)
    requires Sound(e, f) && GoodName(name) && AddName(e, name).Some? && |AddName(e, name).value.p| <= PTR_LIMIT
    requires Agree(AddName(e, name).value.p, q, f + Range(|e.p|, |AddName(e, name).value.p|))
    requires NAME_MAXLEN <= room
    ensures NameRead(ReadName(q, |e.p|, room), name, |AddName(e, name).value.p|, used)
  {
    NameField(e, f, name);
    NameFieldBack(e, AddName(e, name).value, f, name, q, room, used);
  }

  lemma AddrBack(e: Enc, f: set<nat>, a: seq<byte>, q: seq<byte>)
    requires |e.p| + |a| <= |q| && Agree(AddBytes(e, a).p, q, f + Range(|e.p|, |e.p| + |a|))
    ensures Piece(q, |e.p|, |a|) == a
  {
    BytesFieldBack(e, f, a, q);
    WrittenPiece(q, |e.p|, a);
  }

  lemma SoaDataBack(e: Enc, e': Enc, f: set<nat>, max: nat, d: RData, q: seq<byte>, room: nat, used: nat)
    requires Sound(e, f) && d.Soa? && GoodData(d) && AddRData(e, max, d) == Some(e')
    requires |e'.p| <= PTR_LIMIT && |e'.p| <= |q| && Agree(e'.p, q, f + Range(|e.p|, |e'.p|))
    requires 2 * NAME_MAXLEN <= room
    ensures BodyRead(ReadSoa(q, |e.p|, |e'.p|, room, used), d, |e'.p|, used)
  {
    var e1, e2 := SoaField(e, f, max, d);
    SoaBack(e, e1, e2, e', f, d, q, room, used);
  }

  /** Data read back from a packet that keeps its bytes. */
  lemma DataFieldBack(e: Enc, f: set<nat>, max: nat, r: Record, q: seq<byte>, room: nat, used: nat)
    requires Sound(e, f) && Typed(r) && GoodData(r.rdata) && AddRData(e, max, r.rdata).Some?
    requires var e' := AddRData(e, max, r.rdata).value;
             |e'.p| <= PTR_LIMIT && |e.p| <= |e'.p| <= |q| < 0xFFF0 && Agree(e'.p, q, f + Range(|e.p|, |e'.p|))
    requires 2 * NAME_MAXLEN <= room && used <= NAMES_MAX
    ensures var end := |AddRData(e, max, r.rdata).value.p|;
            BodyRead(ReadRData(q, r.typ, |e.p|, end - |e.p|, end, room, used), r.rdata, end, used)
  {
    match r.rdata
    case A(a) => AddrBack(e, f, a, q);
    case Aaaa(a) => AddrBack(e, f, a, q);
    case Ns(n) => NameDataBack(e, f, n, q, room, used);
    case Cname(n) => NameDataBack(e, f, n, q, room, used);
    case Ptr(n) => NameDataBack(e, f, n, q, room, used);
    case Soa(_, _, _, _, _, _, _) => SoaDataBack(e, AddRData(e, max, r.rdata).value, f, max, r.rdata, q, room, used);
    case Txt(strs) =>
      assert strs[..0] == [];
      StrsBack(e, f, max, strs, 0, q, used);
    case Empty =>
  }

  // ---- records ----

  predicate GoodRecord(r: Record) {
    Typed(r) && GoodName(r.name) && GoodData(r.rdata)
  }

  function Need(r: Record): nat {
    NameNeed(r.name) + DataNeed(r.rdata)
  }

  /** The stages of appending a record: name, fixed part, data, length written back. */
  ghost predicate Stages(e: Enc, e1: Enc, e2: Enc, e3: Enc, e': Enc, f: set<nat>, r: Record) {
    var g1 := f + Range(|e.p|, |e1.p|);
    && Placed(e, e1, f, r.name) && e2 == AddBytes(e1, Fixed(r)) && Sound(e2, g1) && Grown(e2, e3, g1)
    && e' == e3.(p := Patch(e3.p, |e2.p| - 2, (|e3.p| - |e2.p|) % 0x1_0000))
  }

  lemma RecordStages(e: Enc, f: set<nat>, max: nat, r: Record) returns (e1: Enc, e2: Enc, e3: Enc)
    requires Sound(e, f) && GoodRecord(r) && AddRecord(e, max, r).Some?
    requires |AddRecord(e, max, r).value.p| <= PTR_LIMIT
    ensures Stages(e, e1, e2, e3, AddRecord(e, max, r).value, f, r) && AddRData(e2, max, r.rdata) == Some(e3)
  {
    e1, e2, e3 := RecordShape(e, max, r);
    NameField(e, f, r.name);
    var g1 := f + Range(|e.p|, |e1.p|);
    SoundFrame(e1, e2.p, g1, g1);
    DataField(e2, g1, max, r.rdata);
  }

  lemma RecordShape(e: Enc, max: nat, r: Record) returns (e1: Enc, e2: Enc, e3: Enc)
    requires AddRecord(e, max, r).Some?
    ensures AddName(e, r.name) == Some(e1) && e2 == AddBytes(e1, Fixed(r)) && AddRData(e2, max, r.rdata) == Some(e3)
    ensures |e.p| < |e1.p| < |e2.p| <= |e3.p|
    ensures AddRecord(e, max, r).value == e3.(p := Patch(e3.p, |e2.p| - 2, (|e3.p| - |e2.p|) % 0x1_0000))
  {
    e1 := AddName(e, r.name).value;
    e2 := AddBytes(e1, Fixed(r));
    e3 := AddRData(e2, max, r.rdata).value;
  }

  /** Writing the length back touches no name, so the packet is sound after the record. */
  lemma PatchOutside(e: Enc, e1: Enc, e2: Enc, e3: Enc, e': Enc, f: set<nat>, r: Record)
    requires Stages(e, e1, e2, e3, e', f, r)
    ensures var g := f + Range(|e.p|, |e1.p|) + Range(|e2.p|, |e3.p|);
            Agree(e3.p, e'.p, g) && Sound(e', g)
  {
    var g1 := f + Range(|e.p|, |e1.p|);
    var g := g1 + Range(|e2.p|, |e3.p|);
    assert forall i :: i in g ==> i != |e2.p| - 2 && i != |e2.p| - 1;
    SoundFrame(e3, e'.p, g, g);
  }

  lemma RecordGrows(e: Enc, max: nat, r: Record)
    requires AddRecord(e, max, r).Some?
    ensures |e.p| < |AddRecord(e, max, r).value.p|
  {
  }

  /** The packet is sound after a record is appended. */
  lemma RecordSound(e: Enc, f: set<nat>, max: nat, r: Record) returns (g: set<nat>)
    requires Sound(e, f) && GoodRecord(r) && AddRecord(e, max, r).Some?
    requires |AddRecord(e, max, r).value.p| <= PTR_LIMIT
    ensures Sound(AddRecord(e, max, r).value, g) && Extends(e.p, AddRecord(e, max, r).value.p)
    ensures |e.p| < |AddRecord(e, max, r).value.p|
  {
    var e1, e2, e3 := RecordStages(e, f, max, r);
    PatchOutside(e, e1, e2, e3, AddRecord(e, max, r).value, f, r);
    g := f + Range(|e.p|, |e1.p|) + Range(|e2.p|, |e3.p|);
  }

  /** A packet that continues the record keeps its names, its fixed fields and the true data length. */
  lemma RecordKept(e: Enc, e1: Enc, e2: Enc, e3: Enc, e': Enc, f: set<nat>, r: Record, q: seq<byte>)
    requires Stages(e, e1, e2, e3, e', f, r) && Extends(e'.p, q) && |e3.p| <= PTR_LIMIT
    ensures var g1 := f + Range(|e.p|, |e1.p|);
            Agree(e1.p, q, g1) && Agree(e3.p, q, g1 + Range(|e2.p|, |e3.p|))
    ensures Written(q, |e1.p|, Head(r)) && Written(q, |e1.p| + 8, EncU16(|e3.p| - |e2.p|))
  {
    assert Agree(e1.p, q, f + Range(|e.p|, |e1.p|))
           && Agree(e3.p, q, f + Range(|e.p|, |e1.p|) + Range(|e2.p|, |e3.p|)) by {
      NamesKept(e, e1, e2, e3, e', f, r, q);
    }
    HeadKept(e1.p, e2.p, e3.p, e'.p, r);
    WrittenOn(e'.p, q, |e1.p|, Head(r));
    WrittenOn(e'.p, q, |e1.p| + 8, EncU16(|e3.p| - |e2.p|));
  }

  lemma WrittenOn(p: seq<byte>, q: seq<byte>, o: nat, b: seq<byte>)
    requires Written(p, o, b) && Extends(p, q)
    ensures Written(q, o, b)
  {
  }

  lemma NamesKept(e: Enc, e1: Enc, e2: Enc, e3: Enc, e': Enc, f: set<nat>, r: Record, q: seq<byte>)
    requires Stages(e, e1, e2, e3, e', f, r) && Extends(e'.p, q) && |e3.p| <= PTR_LIMIT
    ensures var g1 := f + Range(|e.p|, |e1.p|);
            Agree(e1.p, q, g1) && Agree(e3.p, q, g1 + Range(|e2.p|, |e3.p|))
  {
    var g1 := f + Range(|e.p|, |e1.p|);
    var g := g1 + Range(|e2.p|, |e3.p|);
    PatchOutside(e, e1, e2, e3, e', f, r);
    AgreeOnwards(e3.p, e'.p, q, g);
    assert Extends(e1.p, e3.p);
    AgreeVia(e1.p, e3.p, q, g1, g);
  }

  lemma AgreeOnwards(p: seq<byte>, p': seq<byte>, q: seq<byte>, g: set<nat>)
    requires Agree(p, p', g) && Extends(p', q)
    ensures Agree(p, q, g)
  {
  }

  function Head(r: Record): (b: seq<byte>)
    ensures |b| == 8
  {
    EncU16(r.typ) + EncU16(r.cls) + EncU32(r.ttl)
  }

  lemma HeadKept(p1: seq<byte>, p2: seq<byte>, p3: seq<byte>, p: seq<byte>, r: Record)
    requires p2 == p1 + Fixed(r) && Extends(p2, p3) && |p3| - |p2| < 0x1_0000
    requires p == Patch(p3, |p2| - 2, |p3| - |p2|)
    ensures Written(p, |p1|, Head(r)) && Written(p, |p1| + 8, EncU16(|p3| - |p2|))
  {
    var o, h, b := |p1|, Head(r), Fixed(r);
    assert b == h + EncU16(0);
    forall i | 0 <= i < 8
      ensures p[o + i] == h[i]
    {
      assert p[o + i] == p3[o + i] == p2[o + i] == b[i];
    }
  }

  lemma FixedBack(q: seq<byte>, o: nat, r: Record, len: u16)
    requires Written(q, o, Head(r)) && Written(q, o + 8, EncU16(len))
    ensures o + 10 <= |q| && DecU16(q, o) == r.typ && DecU16(q, o + 2) == r.cls
    ensures DecU32(q, o + 4) == r.ttl && DecU16(q, o + 8) == len
  {
    WrittenSplit(q, o, EncU16(r.typ) + EncU16(r.cls), EncU32(r.ttl));
    WrittenSplit(q, o, EncU16(r.typ), EncU16(r.cls));
    WrittenU16(q, o, r.typ);
    WrittenU16(q, o + 2, r.cls);
    WrittenU32(q, o + 4, r.ttl);
    WrittenU16(q, o + 8, len);
  }

  lemma WrittenU16(q: seq<byte>, o: nat, v: u16)
    requires Written(q, o, EncU16(v))
    ensures o + 2 <= |q| && DecU16(q, o) == v
  {
    var b := EncU16(v);
    assert q[o + 0] == b[0] && q[o + 1] == b[1];
    U16ReadBack(q, o, v);
  }

  /** A record came back, ending at `end`. */
  ghost predicate RecordRead(p: Result<Parsed>, r: Record, end: nat, used: nat) {
    p.Ok? && RecordBack(p.value.record, r) && p.value.next == end && p.value.used == used
  }

  /** The fixed fields and the data, read after the name; `o` is where the data begins. */
  lemma AfterNameBack(q: seq<byte>, name: seq<byte>, o: nat, used: nat, r: Record, end: nat, b: Result<Body>)
    requires |q| < 0xFFF0 && 10 <= o <= end <= |q| && |name| < MSG_BUF
    requires Written(q, o - 10, Head(r)) && Written(q, o - 2, EncU16(end - o))
    requires b == ReadRData(q, r.typ, o, end - o, end, MSG_BUF - (|name| + 1), used)
    requires b.Ok? ==> b.value.next == end
    ensures ReadAfterName(q, name, |name|, o - 10, used)
            == if b.Ok? then Ok(Parsed(r.(name := name, rdata := b.value.rdata), end, b.value.used)) else Err(b.error)
  {
    FixedBack(q, o - 10, r, end - o);
    AfterFixed(q, name, o - 10, o, used, r, end, b);
  }

  lemma AfterFixed(q: seq<byte>, name: seq<byte>, h: nat, o: nat, used: nat, r: Record, end: nat, b: Result<Body>)
    requires |q| < 0xFFF0 && h + 10 == o <= end <= |q| && |name| < MSG_BUF
    requires DecU16(q, h) == r.typ && DecU16(q, h + 2) == r.cls && DecU32(q, h + 4) == r.ttl
    requires DecU16(q, h + 8) == end - o
    requires b == ReadRData(q, r.typ, o, end - o, end, MSG_BUF - (|name| + 1), used)
    requires b.Ok? ==> b.value.next == end
    ensures ReadAfterName(q, name, |name|, h, used)
            == if b.Ok? then Ok(Parsed(r.(name := name, rdata := b.value.rdata), end, b.value.used)) else Err(b.error)
  {
    assert (o + (end - o)) % 0x1_0000 == end;
  }

  /** A SOA record came back without its second name. */
  ghost predicate RecordLost(p: Result<Parsed>, r: Record, end: nat, used: nat) {
    && p.Ok? && p.value.next == end && p.value.used == used && NameBack(p.value.record.name, r.name)
    && SoaLost(p.value.record.rdata, r.rdata)
    && p.value.record == r.(name := p.value.record.name, rdata := p.value.record.rdata)
  }

  /** What decoding a record gives, with `used` bytes of the string store taken. */
  ghost predicate RecordOutcome(p: Result<Parsed>, r: Record, end: nat, used: nat) {
    if used + Need(r) <= NAMES_MAX then RecordRead(p, r, end, used + Need(r))
    else if r.rdata.Soa? && used + NameNeed(r.name) + NameNeed(r.rdata.mname) <= NAMES_MAX then
      RecordLost(p, r, end, used + NameNeed(r.name) + NameNeed(r.rdata.mname))
    else p == Err(NoSpace)
  }

  /** Decoding what was encoded for a record, from any packet that continues it, lands where the next record begins;
      the record comes back whole exactly if the string store has room for its names. If not, a SOA record of which
      all but the second name fits comes back without that name and without an error; everything else is refused. */
  lemma RecordRoundTrip(e: Enc, f: set<nat>, max: nat, r: Record, q: seq<byte>, used: nat)
    requires Sound(e, f) && GoodRecord(r) && AddRecord(e, max, r).Some?
    requires |AddRecord(e, max, r).value.p| <= PTR_LIMIT && |q| < 0xFFF0
    requires Extends(AddRecord(e, max, r).value.p, q)
    ensures var p, end := ReadRecord(q, |e.p|, used), |AddRecord(e, max, r).value.p|;
            && RecordOutcome(p, r, end, used)
            && (p.Ok? && RecordBack(p.value.record, r) <==> used + Need(r) <= NAMES_MAX)
  {
    var e1, e2, e3 := RecordStages(e, f, max, r);
    var e' := AddRecord(e, max, r).value;
    StagesBack(e, e1, e2, e3, e', f, max, r, q, used, |e2.p|, |e'.p|);
    OutcomeWhole(ReadRecord(q, |e.p|, used), r, |e'.p|, used);
  }

  lemma OutcomeWhole(p: Result<Parsed>, r: Record, end: nat, used: nat)
    requires RecordOutcome(p, r, end, used)
    ensures p.Ok? && RecordBack(p.value.record, r) <==> used + Need(r) <= NAMES_MAX
  {
  }

  lemma StagesName(e: Enc, e1: Enc, e2: Enc, e3: Enc, e': Enc, f: set<nat>, r: Record, q: seq<byte>, used: nat)
    requires Stages(e, e1, e2, e3, e', f, r) && GoodRecord(r)
    requires |e3.p| <= PTR_LIMIT && Extends(e'.p, q)
    ensures NameRead(ReadName(q, |e.p|, MSG_BUF), r.name, |e1.p|, used)
  {
    RecordKept(e, e1, e2, e3, e', f, r, q);
    NameFieldBack(e, e1, f, r.name, q, MSG_BUF, used);
  }

  lemma StagesData(e: Enc, e1: Enc, e2: Enc, e3: Enc, e': Enc, f: set<nat>, max: nat, r: Record, q: seq<byte>,
                   room: nat, used: nat, o: nat, end: nat)
    requires Stages(e, e1, e2, e3, e', f, r) && GoodRecord(r) && AddRData(e2, max, r.rdata) == Some(e3)
    requires |e3.p| <= PTR_LIMIT && |q| < 0xFFF0 && Extends(e'.p, q) && o == |e2.p| <= end == |e3.p| <= |q|
    requires 2 * NAME_MAXLEN <= room && used <= NAMES_MAX
    ensures BodyRead(ReadRData(q, r.typ, o, end - o, end, room, used), r.rdata, end, used)
  {
    RecordKept(e, e1, e2, e3, e', f, r, q);
    DataFieldBack(e2, f + Range(|e.p|, |e1.p|), max, r, q, room, used);
  }

  lemma StagesHead(e: Enc, e1: Enc, e2: Enc, e3: Enc, e': Enc, f: set<nat>, r: Record, q: seq<byte>)
    requires Stages(e, e1, e2, e3, e', f, r) && |e3.p| <= PTR_LIMIT && Extends(e'.p, q)
    ensures |e1.p| + 10 == |e2.p| <= |e3.p| == |e'.p| <= |q|
    ensures Written(q, |e2.p| - 10, Head(r)) && Written(q, |e2.p| - 2, EncU16(|e3.p| - |e2.p|))
  {
    RecordKept(e, e1, e2, e3, e', f, r, q);
  }

  lemma StagesBack(e: Enc, e1: Enc, e2: Enc, e3: Enc, e': Enc, f: set<nat>, max: nat, r: Record, q: seq<byte>,
                   used: nat, o: nat, end: nat)
    requires Stages(e, e1, e2, e3, e', f, r) && GoodRecord(r) && AddRData(e2, max, r.rdata) == Some(e3)
    requires |e3.p| <= PTR_LIMIT && |q| < 0xFFF0 && Extends(e'.p, q)
    requires o == |e2.p| && end == |e'.p|
    ensures RecordOutcome(ReadRecord(q, |e.p|, used), r, end, used)
  {
    StagesHead(e, e1, e2, e3, e', f, r, q);
    var n := ReadName(q, |e.p|, MSG_BUF);
    assert NameRead(n, r.name, o - 10, used) by { StagesName(e, e1, e2, e3, e', f, r, q, used); }
    var used', room := used + NameNeed(r.name), MSG_BUF - (|n.value.0| + 1);
    var b := ReadRData(q, r.typ, o, end - o, end, room, used');
    assert used' <= NAMES_MAX ==> BodyRead(b, r.rdata, end, used') by {
      if used' <= NAMES_MAX { StagesData(e, e1, e2, e3, e', f, max, r, q, room, used', o, end); }
    }
    RecordAssembled(q, |e.p|, used, r, o, end, n, b);
  }

  lemma RecordAssembled(q: seq<byte>, off: nat, used: nat, r: Record, o: nat, end: nat,
                        n: Result<(seq<byte>, nat)>, b: Result<Body>)
    requires |q| < 0xFFF0 && 10 <= o <= end <= |q|
    requires n == ReadName(q, off, MSG_BUF) && NameRead(n, r.name, o - 10, used)
    requires Written(q, o - 10, Head(r)) && Written(q, o - 2, EncU16(end - o))
    requires b == ReadRData(q, r.typ, o, end - o, end, MSG_BUF - (|n.value.0| + 1), used + NameNeed(r.name))
    requires used + NameNeed(r.name) <= NAMES_MAX ==> BodyRead(b, r.rdata, end, used + NameNeed(r.name))
    ensures RecordOutcome(ReadRecord(q, off, used), r, end, used)
  {
    if used + NameNeed(r.name) <= NAMES_MAX {
      AfterNameBack(q, n.value.0, o, used + NameNeed(r.name), r, end, b);
      NameThenRest(q, off, used, r.name, o - 10);
    }
  }

  lemma NameThenRest(q: seq<byte>, off: nat, used: nat, name: seq<byte>, o: nat)
    requires |q| < 0xFFF0 && NameRead(ReadName(q, off, MSG_BUF), name, o, used) && used + NameNeed(name) <= NAMES_MAX
    ensures var n := ReadName(q, off, MSG_BUF).value.0;
            ReadRecord(q, off, used) == ReadAfterName(q, n, |n|, o, used + NameNeed(name))
  {
  }

  // ---- runs of records ----

  function AddRecords(e: Enc, max: nat, rs: seq<Record>): Option<Enc> {
    if rs == [] then Some(e)
    else match AddRecords(e, max, rs[..|rs| - 1])
      case None => None
      case Some(e') => AddRecord(e', max, rs[|rs| - 1])
  }

  function NeedAll(rs: seq<Record>): nat {
    if rs == [] then 0 else NeedAll(rs[..|rs| - 1]) + Need(rs[|rs| - 1])
  }

  /** `n` consecutive `dns_rr_decode` calls from `off` on: the records, where the last ends, the string store. */
  function ReadRecords(pkt: seq<byte>, off: nat, used: nat, n: nat): (r: Result<(seq<Record>, nat, nat)>)
    requires |pkt| < 0xFFF0
    ensures r.Ok? ==> |r.value.0| == n
  {
    if n == 0 then Ok(([], off, used))
    else match ReadRecords(pkt, off, used, n - 1)
      case Err(e) => Err(e)
      case Ok((rs, o, u)) =>
        match ReadRecord(pkt, o, u)
        case Err(e) => Err(e)
        case Ok(p) => Ok((rs + [p.record], p.next, p.used))
  }

  lemma {:induction false} RecordsSound(e: Enc, f: set<nat>, max: nat, rs: seq<Record>) returns (g: set<nat>)
    requires Sound(e, f) && AddRecords(e, max, rs).Some? && forall i :: 0 <= i < |rs| ==> GoodRecord(rs[i])
    requires |AddRecords(e, max, rs).value.p| <= PTR_LIMIT
    ensures Sound(AddRecords(e, max, rs).value, g)
  {
    g := f;
    if rs != [] {
      var n := |rs| - 1;
      var mid := AddRecords(e, max, rs[..n]).value;
      RecordGrows(mid, max, rs[n]);
      g := RecordsSound(e, f, max, rs[..n]);
      g := RecordSound(mid, g, max, rs[n]);
    }
  }

  ghost predicate AllBack(got: seq<Record>, rs: seq<Record>) {
    |got| == |rs| && forall i :: 0 <= i < |rs| ==> RecordBack(got[i], rs[i])
  }

  /** Every record came back, up to the case of names. */
  ghost predicate Whole(r: Result<(seq<Record>, nat, nat)>, rs: seq<Record>) {
    r.Ok? && AllBack(r.value.0, rs)
  }

  /** Records encoded one after another are read by as many consecutive `dns_rr_decode` calls, from any packet that
      continues them: they come back whole exactly if the string store has room for all their names, and then each
      call lands on the start of the next record. */
  lemma {:induction false} RecordsRoundTrip(e: Enc, f: set<nat>, max: nat, rs: seq<Record>, q: seq<byte>, used: nat)
    requires Sound(e, f) && AddRecords(e, max, rs).Some? && forall i :: 0 <= i < |rs| ==> GoodRecord(rs[i])
    requires |AddRecords(e, max, rs).value.p| <= PTR_LIMIT && |q| < 0xFFF0 && used <= NAMES_MAX
    requires Extends(AddRecords(e, max, rs).value.p, q)
    ensures var r := ReadRecords(q, |e.p|, used, |rs|);
            && (Whole(r, rs) <==> used + NeedAll(rs) <= NAMES_MAX)
            && (Whole(r, rs) ==> r.value.1 == |AddRecords(e, max, rs).value.p| && r.value.2 == used + NeedAll(rs))
  {
    if rs != [] {
      var n := |rs| - 1;
      var mid := AddRecords(e, max, rs[..n]).value;
      RecordGrows(mid, max, rs[n]);
      var g := RecordsSound(e, f, max, rs[..n]);
      var _ := RecordSound(mid, g, max, rs[n]);
      RecordsRoundTrip(e, f, max, rs[..n], q, used);
      var pre := ReadRecords(q, |e.p|, used, n);
      WholeSplits(q, |e.p|, used, rs, pre);
      if Whole(pre, rs[..n]) { RecordRoundTrip(mid, g, max, rs[n], q, pre.value.2); }
    }
  }

  lemma AllBackSplits(got: seq<Record>, x: Record, rs: seq<Record>)
    requires |rs| == |got| + 1
    ensures AllBack(got + [x], rs) <==> AllBack(got, rs[..|got|]) && RecordBack(x, rs[|got|])
  {
    var n := |got|;
    assert (got + [x])[n] == x;
    assert forall i :: 0 <= i < n ==> (got + [x])[i] == got[i] && rs[..n][i] == rs[i];
  }

  /** Records come back whole if and only if all but the last do and then the last does. */
  lemma WholeSplits(q: seq<byte>, off: nat, used: nat, rs: seq<Record>, pre: Result<(seq<Record>, nat, nat)>)
    requires |q| < 0xFFF0 && |rs| > 0 && pre == ReadRecords(q, off, used, |rs| - 1)
    ensures var r, n := ReadRecords(q, off, used, |rs|), |rs| - 1;
            Whole(r, rs) <==>
            && Whole(pre, rs[..n])
            && var p := ReadRecord(q, pre.value.1, pre.value.2);
               && p.Ok? && RecordBack(p.value.record, rs[n])
               && r == Ok((pre.value.0 + [p.value.record], p.value.next, p.value.used))
  {
    if pre.Ok? {
      var p := ReadRecord(q, pre.value.1, pre.value.2);
      if p.Ok? { AllBackSplits(pre.value.0, p.value.record, rs); }
    }
  }
}
