/** Resource records (section 4.1.3 of RFC 1035): encoding with a back-patched data length, decoding, and
    the string store of a message. */
module DnsRecord {
  import opened Bytes
  import opened DnsName
  import opened DnsWire

  const TYPE_A := 1
  const TYPE_NS := 2
  const TYPE_CNAME := 5
  const TYPE_SOA := 6
  const TYPE_PTR := 12
  const TYPE_TXT := 16
  const TYPE_AAAA := 28
  const UNMODELLED := {13, 15, 33, 41}  // HINFO, MX, SRV, OPT

  const MSG_BUF := 1124      // scratch buffer of the decoder
  const NAMES_MAX := 2048    // string store of a message
  const MAX_TXT := 32

  datatype RData =
    | A(addr: seq<byte>)
    | Aaaa(addr: seq<byte>)
    | Ns(name: seq<byte>)
    | Cname(name: seq<byte>)
    | Ptr(name: seq<byte>)
    | Soa(mname: seq<byte>, rname: seq<byte>, serial: u32, refresh: u32, retry: u32, expire: u32, minTtl: u32)
    | Txt(strs: seq<seq<byte>>)
    | Empty

  datatype Record = Record(name: seq<byte>, typ: u16, cls: u16, ttl: u32, rdata: RData)

  /** The record's type says which member of the data is in use. */
  predicate Typed(r: Record) {
    match r.rdata
    case A(a) => r.typ == TYPE_A && |a| == 4
    case Aaaa(a) => r.typ == TYPE_AAAA && |a| == 16
    case Ns(_) => r.typ == TYPE_NS
    case Cname(_) => r.typ == TYPE_CNAME
    case Ptr(_) => r.typ == TYPE_PTR
    case Soa(_, _, _, _, _, _, _) => r.typ == TYPE_SOA
    case Txt(_) => r.typ == TYPE_TXT
    case Empty => r.typ !in UNMODELLED
                  && r.typ !in {TYPE_A, TYPE_AAAA, TYPE_NS, TYPE_CNAME, TYPE_PTR, TYPE_SOA, TYPE_TXT}
  }

  // ---- encoding ----

  /** Append a name after reserving the largest size a name can take. */
  function ReserveName(e: Enc, max: nat, name: seq<byte>): Option<Enc> {
    if |e.p| + NAME_MAXLEN > max then None else AddName(e, name)
  }

  function ReserveBytes(e: Enc, max: nat, b: seq<byte>): Option<Enc> {
    if |e.p| + |b| > max then None else Some(AddBytes(e, b))
  }

  /** A string with its length in front. */
  function Counted(s: seq<byte>): seq<byte> {
    [(|s| % 256) as byte] + s
  }

  function AddStrs(e: Enc, max: nat, strs: seq<seq<byte>>, i: nat): Option<Enc>
    requires i <= |strs|
    decreases |strs| - i
  {
    if i == |strs| then Some(e)
    else match ReserveBytes(e, max, Counted(strs[i]))
      case None => None
      case Some(e') => AddStrs(e', max, strs, i + 1)
  }

  function SoaInts(d: RData): (b: seq<byte>)
    requires d.Soa?
    ensures |b| == 20
  {
    EncU32(d.serial) + EncU32(d.refresh) + EncU32(d.retry) + EncU32(d.expire) + EncU32(d.minTtl)
  }

  function AddRData(e: Enc, max: nat, d: RData): Option<Enc> {
    match d
    case A(a) => ReserveBytes(e, max, a)
    case Aaaa(a) => ReserveBytes(e, max, a)
    case Ns(n) => ReserveName(e, max, n)
    case Cname(n) => ReserveName(e, max, n)
    case Ptr(n) => ReserveName(e, max, n)
    case Soa(m, r, _, _, _, _, _) =>
      (match ReserveName(e, max, m)
       case None => None
       case Some(e1) =>
         match ReserveName(e1, max, r)
         case None => None
         case Some(e2) => ReserveBytes(e2, max, SoaInts(d)))
    case Txt(strs) => AddStrs(e, max, strs, 0)
    case Empty => Some(e)
  }

  function Fixed(r: Record): (b: seq<byte>)
    ensures |b| == 10
  {
    EncU16(r.typ) + EncU16(r.cls) + EncU32(r.ttl) + EncU16(0)
  }

  /** Overwrite two bytes. */
  function Patch(p: seq<byte>, at: nat, v: u16): (q: seq<byte>)
    requires at + 2 <= |p|
    ensures |q| == |p| && q[at] == EncU16(v)[0] && q[at + 1] == EncU16(v)[1]
    ensures forall i :: 0 <= i < |p| && i != at && i != at + 1 ==> q[i] == p[i]
  {
    p[at := EncU16(v)[0]][at + 1 := EncU16(v)[1]]
  }

  /** Name, fixed part with a zero length, data; then the length is written back. */
  function AddRecord(e: Enc, max: nat, r: Record): Option<Enc> {
    if |e.p| + NAME_MAXLEN + 10 > max then None
    else match AddName(e, r.name)
      case None => None
      case Some(e1) =>
        var e2 := AddBytes(e1, Fixed(r));
        match AddRData(e2, max, r.rdata)
        case None => None
        case Some(e3) =>
          if |e3.p| < |e2.p| then None
          else Some(e3.(p := Patch(e3.p, |e2.p| - 2, (|e3.p| - |e2.p|) % 0x1_0000)))
  }

  // ---- decoding ----

  datatype RecError = NameErr(error: NameError) | Truncated | RdataLen | NoSpace | Unmodelled

  datatype Result<+T> = Ok(value: T) | Err(error: RecError)

  function ZeroFrom(s: seq<byte>, i: nat): (r: nat)
    requires i <= |s|
    ensures i <= r <= |s| && (r < |s| ==> s[r] == 0)
    decreases |s| - i
  {
    if i == |s| || s[i] == 0 then i else ZeroFrom(s, i + 1)
  }

  /** What the C string functions see of some bytes. */
  function CStr(s: seq<byte>): seq<byte> {
    s[..ZeroFrom(s, 0)]
  }

  /** A name at `off`, the root shown as a dot, and the offset after it. */
  function ReadName(pkt: seq<byte>, off: nat, room: nat): (r: Result<(seq<byte>, nat)>)
    ensures r.Ok? ==> |r.value.0| < room && off < r.value.1 <= |pkt|
  {
    match Decode(pkt, off, 0, room)
    case Bad(e) => Err(NameErr(e))
    case Text(t, adv) =>
      if t != [] then Ok((t, off + adv))
      else if room < 2 then Err(NoSpace)
      else Ok(([DOT], off + adv))
  }

  /** Room taken in the message's string store, which is `used` full. */
  function Store(used: nat, s: seq<byte>): Option<nat> {
    if |s| > NAME_MAXSTR || used + |s| + 1 > NAMES_MAX then None else Some(used + |s| + 1)
  }

  /** Data read, the offset after it, and the string store in use. */
  datatype Body = Body(rdata: RData, next: nat, used: nat)

  /** Read a name, store it as a C string, and go on. */
  function ReadStored(pkt: seq<byte>, off: nat, room: nat, used: nat): Result<(seq<byte>, nat, nat, nat)> {
    match ReadName(pkt, off, room)
    case Err(e) => Err(e)
    case Ok((t, next)) =>
      match Store(used, CStr(t))
      case None => Err(NoSpace)
      case Some(used') => Ok((CStr(t), next, used', |t|))
  }

  /** Two names and five integers. A second name that does not fit the store goes unnoticed and is null. */
  function ReadSoa(pkt: seq<byte>, off: nat, end: nat, room: nat, used: nat): Result<Body>
    requires end <= |pkt|
  {
    match ReadStored(pkt, off, room, used)
    case Err(e) => Err(e)
    case Ok((m, o1, u1, len)) =>
      match ReadName(pkt, o1, if len <= room then room - len else 0)
      case Err(e) => Err(e)
      case Ok((t, o2)) => SoaRest(pkt, m, CStr(t), o2, end, u1)
  }

  function SoaRest(pkt: seq<byte>, m: seq<byte>, r: seq<byte>, o: nat, end: nat, used: nat): Result<Body>
    requires end <= |pkt|
  {
    var stored := Store(used, r);
    if o + 20 > end then Err(RdataLen)
    else Ok(Body(Soa(m, if stored.Some? then r else [], DecU32(pkt, o), DecU32(pkt, o + 4), DecU32(pkt, o + 8),
                     DecU32(pkt, o + 12), DecU32(pkt, o + 16)), o + 20,
                 if stored.Some? then stored.value else used))
  }

  /** Length-prefixed strings up to the end of the data. */
  function ReadStrs(pkt: seq<byte>, off: nat, end: nat, used: nat, strs: seq<seq<byte>>): Result<Body>
    requires end <= |pkt|
    decreases end - off
  {
    if off >= end then Ok(Body(Txt(strs), off, used))
    else
      var len: nat := pkt[off] as int;
      if off + 1 + len > end then Err(RdataLen)
      else if |strs| >= MAX_TXT then Err(NoSpace)
      else
        var s := Piece(pkt, off + 1, len);
        match Store(used, s)
        case None => Err(NoSpace)
        case Some(used') => ReadStrs(pkt, off + 1 + len, end, used', strs + [s])
  }

  function ReadRData(pkt: seq<byte>, typ: u16, off: nat, rdlen: nat, end: nat, room: nat, used: nat): Result<Body>
    requires off <= |pkt| < 0xFFF0 && end == (off + rdlen) % 0x1_0000 <= |pkt|
  {
    if typ == TYPE_A then
      if rdlen != 4 then Err(RdataLen) else Ok(Body(A(Piece(pkt, off, 4)), off + 4, used))
    else if typ == TYPE_AAAA then
      if rdlen != 16 then Err(RdataLen) else Ok(Body(Aaaa(Piece(pkt, off, 16)), off + 16, used))
    else if typ in {TYPE_NS, TYPE_CNAME, TYPE_PTR} then
      match ReadStored(pkt, off, room, used)
      case Err(e) => Err(e)
      case Ok((n, next, used', _)) =>
        Ok(Body(if typ == TYPE_NS then Ns(n) else if typ == TYPE_CNAME then Cname(n) else Ptr(n), next, used'))
    else if typ == TYPE_SOA then ReadSoa(pkt, off, end, room, used)
    else if typ == TYPE_TXT then ReadStrs(pkt, off, end, used, [])
    else if typ in UNMODELLED then Err(Unmodelled)
    else Ok(Body(Empty, off + rdlen, used))
  }

  datatype Parsed = Parsed(record: Record, next: nat, used: nat)

  /** A record with its data put in, if the data ends where its length says. */
  function Assembled(r: Record, end: nat, b: Result<Body>): Result<Parsed> {
    match b
    case Err(e) => Err(e)
    case Ok(b) => if b.next != end then Err(RdataLen) else Ok(Parsed(r.(rdata := b.rdata), b.next, b.used))
  }

  /** The data of a record, of `rdlen` bytes, read after its fixed part. */
  function ReadAfterHead(pkt: seq<byte>, head: Record, rdlen: nat, o: nat, room: nat, used: nat): Result<Parsed>
    requires o <= |pkt| < 0xFFF0
  {
    var end := (o + rdlen) % 0x1_0000;
    if end > |pkt| then Err(Truncated) else Assembled(head, end, ReadRData(pkt, head.typ, o, rdlen, end, room, used))
  }

  /** The part of a record after its name, of which `len` bytes stand in the scratch buffer. */
  function ReadAfterName(pkt: seq<byte>, name: seq<byte>, len: nat, o: nat, used: nat): Result<Parsed>
    requires |pkt| < 0xFFF0
  {
    if o + 10 > |pkt| then Err(Truncated)
    else
      var head := Record(name, DecU16(pkt, o), DecU16(pkt, o + 2), DecU32(pkt, o + 4), Empty);
      ReadAfterHead(pkt, head, DecU16(pkt, o + 8), o + 10, if len < MSG_BUF then MSG_BUF - (len + 1) else 0, used)
  }

  /** One record at `off`, into a message whose string store is `used` full. */
  function ReadRecord(pkt: seq<byte>, off: nat, used: nat): Result<Parsed>
    requires |pkt| < 0xFFF0
  {
    match ReadStored(pkt, off, MSG_BUF, used)
    case Err(e) => Err(e)
    case Ok((name, o, used', len)) => ReadAfterName(pkt, name, len, o, used')
  }
}
