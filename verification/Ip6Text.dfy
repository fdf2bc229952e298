/** IPv6 addresses as text: the form of sections 4.1 and 4.2 of RFC 5952, and reading it back. */
module Ip6Text {
  import opened Bytes

  const COLON: byte := 58
  const DOT: byte := 46
  const IP6_ADDR_STRLEN := 46

  // ---- hexadecimal ----

  function HexDigit(d: nat): byte
    requires d < 16
  {
    if d < 10 then 48 + d else 87 + d
  }

  function HexLen(v: u16): nat {
    if v < 0x10 then 1 else if v < 0x100 then 2 else if v < 0x1000 then 3 else 4
  }

  /** Lower case, no leading zeros. */
  function Hex(v: u16): (r: seq<byte>)
    ensures |r| == HexLen(v)
  {
    if v < 16 then [HexDigit(v)] else Hex(v / 16) + [HexDigit(v % 16)]
  }

  lemma {:induction false} HexShort(v: u16)
    ensures |Hex(v)| > 1 ==> Hex(v)[0] != HexDigit(0)
  {
    if v >= 16 { HexShort(v / 16); }
  }

  /** `uint16_toax`. */
  method ToHex(v: u16) returns (r: seq<byte>)
    ensures r == Hex(v)
  {
    r := [];
    if v >= 0x1000 { r := r + [HexDigit(v / 0x1000 % 16)]; }
    if v >= 0x100 { r := r + [HexDigit(v / 0x100 % 16)]; }
    if v >= 0x10 { r := r + [HexDigit(v / 0x10 % 16)]; }
    r := r + [HexDigit(v % 16)];
    HexUnrolled(v);
  }

  lemma HexUnrolled(v: u16)
    ensures v >= 0x10 ==> Hex(v) == Hex(v / 0x10) + [HexDigit(v % 16)]
    ensures v >= 0x100 ==> Hex(v / 0x10) == Hex(v / 0x100) + [HexDigit(v / 0x10 % 16)]
    ensures v >= 0x1000 ==> Hex(v / 0x100) == [HexDigit(v / 0x1000 % 16), HexDigit(v / 0x100 % 16)]
  {
    assert v / 0x10 / 0x10 == v / 0x100 && v / 0x100 / 0x10 == v / 0x1000;
  }

  predicate IsHex(c: byte) {
    48 <= c <= 57 || 65 <= c <= 70 || 97 <= c <= 102
  }

  function HexValue(c: byte): (d: nat)
    requires IsHex(c)
    ensures d < 16
  {
    if c <= 57 then c - 48 else if c <= 70 then c - 55 else c - 87
  }

  /** `hex_to_nibble`: the same without branches. */
  method HexToNibble(c: byte) returns (d: nat)
    requires IsHex(c)
    ensures d == HexValue(c)
  {
    d := c % 16 + c / 64 + c / 64 * 8;
  }

  lemma ValueOfDigit(d: nat)
    requires d < 16
    ensures IsHex(HexDigit(d)) && HexValue(HexDigit(d)) == d
  {
  }

  // ---- the text ----

  type Fields = f: seq<u16> | |f| == 8 witness [0, 0, 0, 0, 0, 0, 0, 0]

  predicate Zeros(f: Fields, p: nat, l: nat) {
    p + l <= 8 && forall k :: p <= k < p + l ==> f[k] == 0
  }

  /** The first of the longest runs of two or more zero fields; or there is none, and `len` is 0. */
  ghost predicate Shortens(f: Fields, pos: nat, len: nat) {
    if len == 0 then forall p: nat :: !Zeros(f, p, 2)
    else
      && len >= 2 && Zeros(f, pos, len)
      && forall p: nat, l: nat :: Zeros(f, p, l) ==> l < len || (l == len && pos <= p) || l == 0
  }

  /** Fields `k` up to `m`, each after a colon. */
  function Rest(f: Fields, k: nat, m: nat): seq<byte>
    requires k <= m <= 8
    decreases m - k
  {
    if k == m then [] else [COLON] + Hex(f[k]) + Rest(f, k + 1, m)
  }

  function Part(f: Fields, k: nat, m: nat): seq<byte>
    requires k <= m <= 8
  {
    if k == m then [] else Hex(f[k]) + Rest(f, k + 1, m)
  }

  function Text(f: Fields, pos: nat, len: nat): seq<byte>
    requires pos + len <= 8
  {
    if len == 0 then Part(f, 0, |f|)
    else Part(f, 0, pos) + [COLON, COLON] + Part(f, pos + len, |f|)
  }

  /** Fields as bytes, from field `k` on. */
  function Octets(f: seq<u16>, k: nat): (b: seq<byte>)
    requires k <= |f|
    ensures |b| == 2 * (|f| - k)
    decreases |f| - k
  {
    if k == |f| then [] else EncU16(f[k]) + Octets(f, k + 1)
  }

  // ---- reading ----

  /** The decoder's state: the fields written, where a double colon was met, the digits, fields and value so far. */
  datatype State = State(out: seq<u16>, zero: Option<nat>, hex: nat, seg: nat, acc: nat)

  datatype Result = Ok(addr: seq<byte>, used: nat) | Bad | Dotted

  function Cap(hex: nat): nat {
    if hex == 0 then 1 else if hex == 1 then 0x10 else if hex == 2 then 0x100 else if hex == 3 then 0x1000 else 0x1_0000
  }

  /** The destination has room for one more field, and the value is of as many digits as were read. */
  ghost predicate Room(s: State) {
    && s.hex <= 4 && s.acc < Cap(s.hex)
    && |s.out| <= 7 && |s.out| <= s.seg && (s.zero.Some? ==> s.zero.value <= |s.out|)
  }

  /** The state's fields, with the one it has read. */
  function Flushed(s: State): seq<u16>
    requires Room(s)
  {
    if s.hex > 0 then s.out + [s.acc] else s.out
  }

  function Repeated<T>(n: nat, x: T): (r: seq<T>)
    ensures |r| == n && forall k :: 0 <= k < n ==> r[k] == x
  {
    seq(n, _ => x)
  }

  /** The fields with the gap at `z` opened to make them eight. */
  function Opened(out: seq<u16>, z: nat): seq<u16>
    requires z <= |out| <= 8
  {
    out[..z] + Repeated<u16>(8 - |out|, 0) + out[z..]
  }

  /** The end of the text: the last field, the gap opened, the count of fields checked. */
  function Finish(s: State, used: nat, dst: seq<byte>): Result
    requires Room(s) && |dst| == 16
  {
    var out := Flushed(s);
    var seg := if s.hex > 0 then s.seg + 1 else s.seg;
    if s.zero.Some? then Ok(Octets(Opened(out, s.zero.value), 0), used)
    else if seg != 8 then Bad
    else Ok(Octets(out, 0) + dst[2 * |out|..], used)
  }

  /** Where the characters lead: to the end, or to one that ends the text; or the text is refused. */
  datatype Scanned = To(s: State, used: nat) | Refused | AtDot

  /** `ip6_str_decode` from character `i` on. */
  function Scan(t: seq<byte>, i: nat, s: State): (r: Scanned)
    requires Room(s)
    ensures r.To? ==> Room(r.s)
    decreases |t| - i
  {
    if i >= |t| then To(s, i)
    else if IsHex(t[i]) then
      if s.hex >= 4 then Refused else Scan(t, i + 1, s.(hex := s.hex + 1, acc := s.acc * 16 + HexValue(t[i])))
    else if t[i] == COLON then
      if s.hex > 0 && s.seg >= 7 then Refused
      else if i + 1 < |t| && t[i + 1] == COLON then
        if s.zero.Some? then Refused else Scan(t, i + 2, State(Flushed(s), Some(|Flushed(s)|), 0, s.seg + 1, 0))
      else Scan(t, i + 1, State(Flushed(s), s.zero, 0, s.seg + 1, 0))
    else if t[i] == DOT then if s.seg > 6 then Refused else AtDot
    else To(s, i + 1)
  }

  const START := State([], None, 0, 0, 0)

  /** `ip6_str_decode`; `dst` is what the destination held. */
  function Decode(t: seq<byte>, dst: seq<byte>): Result
    requires |dst| == 16
  {
    match Scan(t, 0, START)
    case To(s, used) => Finish(s, used, dst)
    case Refused => Bad
    case AtDot => Dotted
  }

  // ---- reading back what was written ----

  /** Reading from one state leads to another. */
  ghost predicate Leads(t: seq<byte>, i: nat, s: State, j: nat, s': State) {
    Room(s) && Room(s') && Scan(t, i, s) == Scan(t, j, s')
  }

  lemma Onward(t: seq<byte>, i: nat, s: State, j: nat, s': State, k: nat, fin: State)
    requires Leads(t, i, s, j, s') && Leads(t, j, s', k, fin)
    ensures Leads(t, i, s, k, fin)
  {
  }

  lemma ScanDigit(t: seq<byte>, i: nat, d: nat, s: State)
    requires Room(s) && i < |t| && d < 16 && t[i] == HexDigit(d) && s.hex < 4
    ensures Leads(t, i, s, i + 1, s.(hex := s.hex + 1, acc := s.acc * 16 + d))
  {
    ValueOfDigit(d);
  }

  /** A field read whole. */
  lemma {:induction false} ScanHex(t: seq<byte>, i: nat, v: u16, s: State, n: nat, fin: State)
    requires Room(s) && s.hex == 0 && s.acc == 0 && Written(t, i, Hex(v))
    requires n == HexLen(v) && fin == s.(hex := n, acc := v)
    ensures Leads(t, i, s, i + n, fin)
  {
    LastDigit(t, i, v);
    if v < 16 {
      ScanDigit(t, i, v, s);
    } else {
      var mid := s.(hex := n - 1, acc := v / 16);
      ScanHex(t, i, v / 16, s, n - 1, mid);
      ScanDigit(t, i + n - 1, v % 16, mid);
      Onward(t, i, s, i + n - 1, mid, i + n, fin);
    }
  }

  lemma LastDigit(t: seq<byte>, i: nat, v: u16)
    requires Written(t, i, Hex(v))
    ensures t[i + HexLen(v) - 1] == HexDigit(v % 16)
    ensures v >= 16 ==> Written(t, i, Hex(v / 16)) && HexLen(v) == HexLen(v / 16) + 1
  {
    if v >= 16 { WrittenSplit(t, i, Hex(v / 16), [HexDigit(v % 16)]); }
    assert t[i + HexLen(v) - 1] == Hex(v)[HexLen(v) - 1];
  }

  /** A field read and not yet written. */
  function Pending(out: seq<u16>, zero: Option<nat>, seg: nat, v: u16): State {
    State(out, zero, HexLen(v), seg, v)
  }

  lemma {:induction false} HexFirst(v: u16)
    ensures IsHex(Hex(v)[0])
  {
    if v >= 16 { HexFirst(v / 16); } else { ValueOfDigit(v); }
  }

  lemma ScanColon(t: seq<byte>, i: nat, s: State, s': State)
    requires Room(s) && i < |t| && t[i] == COLON && (i + 1 < |t| ==> t[i + 1] != COLON) && (s.hex > 0 ==> s.seg < 7)
    requires s' == State(Flushed(s), s.zero, 0, s.seg + 1, 0)
    ensures Leads(t, i, s, i + 1, s')
  {
  }

  lemma ScanColons(t: seq<byte>, i: nat, s: State, s': State)
    requires Room(s) && i + 1 < |t| && t[i] == COLON && t[i + 1] == COLON && (s.hex > 0 ==> s.seg < 7) && s.zero.None?
    requires s' == State(Flushed(s), Some(|Flushed(s)|), 0, s.seg + 1, 0)
    ensures Leads(t, i, s, i + 2, s')
  {
  }

  /** The colon and the field after it. */
  lemma ScanNext(t: seq<byte>, i: nat, s: State, w: u16, fin: State)
    requires Room(s) && s.hex > 0 && s.seg < 7 && Written(t, i, [COLON] + Hex(w))
    requires fin == Pending(s.out + [s.acc], s.zero, s.seg + 1, w)
    ensures Leads(t, i, s, i + 1 + HexLen(w), fin)
  {
    var s' := State(s.out + [s.acc], s.zero, 0, s.seg + 1, 0);
    ColonNext(t, i, w);
    ScanColon(t, i, s, s');
    ScanFirst(t, i + 1, w, s', fin);
    Onward(t, i, s, i + 1, s', i + 1 + HexLen(w), fin);
  }

  lemma ColonNext(t: seq<byte>, i: nat, w: u16)
    requires Written(t, i, [COLON] + Hex(w))
    ensures i + 1 < |t| && t[i] == COLON && t[i + 1] != COLON && Written(t, i + 1, Hex(w))
  {
    WrittenSplit(t, i, [COLON], Hex(w));
    HexFirst(w);
    assert t[i] == [COLON][0] && t[i + 1] == Hex(w)[0];
  }

  /** The fields after colons, up to the state `fin` at `end`. */
  lemma {:induction false} ScanRest(t: seq<byte>, i: nat, f: Fields, k: nat, m: nat, s: State, end: nat, fin: State)
    requires 1 <= k <= m <= 8 && s.seg + m - k <= 7 && Room(s) && s == Pending(s.out, s.zero, s.seg, f[k - 1])
    requires Written(t, i, Rest(f, k, m)) && end == i + |Rest(f, k, m)|
    requires fin == Pending(s.out + f[k - 1..m - 1], s.zero, s.seg + m - k, f[m - 1])
    ensures Leads(t, i, s, end, fin)
    decreases m - k
  {
    if k < m {
      var s', at := Pending(s.out + [s.acc], s.zero, s.seg + 1, f[k]), i + 1 + HexLen(f[k]);
      RestSplit(t, i, f, k, m);
      OutNext(f, k, m, s.out);
      ScanNext(t, i, s, f[k], s');
      ScanRest(t, at, f, k + 1, m, s', end, fin);
      Onward(t, i, s, at, s', end, fin);
    } else {
      assert s.out + f[k - 1..m - 1] == s.out;
    }
  }

  lemma OutNext(f: Fields, k: nat, m: nat, out: seq<u16>)
    requires 1 <= k < m <= 8
    ensures out + f[k - 1..m - 1] == out + [f[k - 1]] + f[k..m - 1]
  {
  }

  lemma RestSplit(t: seq<byte>, i: nat, f: Fields, k: nat, m: nat)
    requires k < m <= 8 && Written(t, i, Rest(f, k, m))
    ensures Written(t, i, [COLON] + Hex(f[k])) && Written(t, i + 1 + HexLen(f[k]), Rest(f, k + 1, m))
    ensures |Rest(f, k, m)| == 1 + HexLen(f[k]) + |Rest(f, k + 1, m)|
  {
    WrittenSplit(t, i, [COLON] + Hex(f[k]), Rest(f, k + 1, m));
  }

  lemma PartSplit(t: seq<byte>, i: nat, f: Fields, k: nat, m: nat)
    requires k < m <= 8 && Written(t, i, Part(f, k, m))
    ensures Written(t, i, Hex(f[k])) && Written(t, i + HexLen(f[k]), Rest(f, k + 1, m))
    ensures |Part(f, k, m)| == HexLen(f[k]) + |Rest(f, k + 1, m)|
  {
    WrittenSplit(t, i, Hex(f[k]), Rest(f, k + 1, m));
  }

  lemma ScanFirst(t: seq<byte>, i: nat, v: u16, s: State, s': State)
    requires s.hex == 0 && s.acc == 0 && Room(s) && Written(t, i, Hex(v)) && s' == Pending(s.out, s.zero, s.seg, v)
    ensures Leads(t, i, s, i + HexLen(v), s')
  {
    ScanHex(t, i, v, s, HexLen(v), s');
  }

  /** Fields `k` up to `m`, from a state with no digits. */
  lemma ScanPart(t: seq<byte>, i: nat, f: Fields, k: nat, m: nat, s: State, end: nat, fin: State)
    requires k < m <= 8 && s.hex == 0 && s.acc == 0 && s.seg + m - k <= 8 && |s.out| <= s.seg
    requires Room(s) && Written(t, i, Part(f, k, m)) && end == i + |Part(f, k, m)|
    requires fin == Pending(s.out + f[k..m - 1], s.zero, s.seg + m - 1 - k, f[m - 1])
    ensures Leads(t, i, s, end, fin)
  {
    var s', at := Pending(s.out, s.zero, s.seg, f[k]), i + HexLen(f[k]);
    PartSplit(t, i, f, k, m);
    ScanFirst(t, i, f[k], s, s');
    ScanRest(t, at, f, k + 1, m, s', end, fin);
    Onward(t, i, s, at, s', end, fin);
  }

  lemma ScanWhole(f: Fields, t: seq<byte>) returns (fin: State)
    requires t == Part(f, 0, |f|)
    ensures Scan(t, 0, START) == To(fin, |t|)
    ensures Room(fin) && fin.zero == None && fin.hex > 0 && fin.seg == 7 && Flushed(fin) == f
  {
    fin := Pending([] + f[0..|f| - 1], None, 7, f[7]);
    assert [] + f[0..|f| - 1] + [f[7]] == f;
    ScanPart(t, 0, f, 0, |f|, START, |t|, fin);
  }

  /** After a double colon that follows field `m - 1`. */
  function Gap(f: Fields, m: nat): State
    requires m <= 8
  {
    State(f[..m], Some(m), 0, if m == 0 then 1 else m, 0)
  }

  lemma ScanBefore(f: Fields, m: nat, t: seq<byte>)
    requires m <= 6 && Written(t, 0, Part(f, 0, m)) && Written(t, |Part(f, 0, m)|, [COLON, COLON])
    ensures Leads(t, 0, START, |Part(f, 0, m)| + 2, Gap(f, m))
  {
    var at := |Part(f, 0, m)|;
    assert t[at] == [COLON, COLON][0] && t[at + 1] == [COLON, COLON][1];
    if m > 0 {
      var mid := Pending(f[..m - 1], None, m - 1, f[m - 1]);
      FirstFields(f, m, t, START, at, mid);
      GapNext(f, m, t, at, mid);
      Onward(t, 0, START, at, mid, at + 2, Gap(f, m));
    } else {
      ScanColons(t, at, START, Gap(f, m));
    }
  }

  lemma FirstFields(f: Fields, m: nat, t: seq<byte>, s: State, at: nat, mid: State)
    requires 0 < m <= 6 && Written(t, 0, Part(f, 0, m)) && s == START && at == |Part(f, 0, m)|
    requires mid == Pending(f[..m - 1], None, m - 1, f[m - 1])
    ensures Leads(t, 0, s, at, mid)
  {
    assert s.out + f[0..m - 1] == f[..m - 1];
    ScanPart(t, 0, f, 0, m, s, at, mid);
  }

  lemma GapNext(f: Fields, m: nat, t: seq<byte>, at: nat, mid: State)
    requires 0 < m <= 6 && mid == Pending(f[..m - 1], None, m - 1, f[m - 1])
    requires at + 1 < |t| && t[at] == COLON && t[at + 1] == COLON
    ensures Leads(t, at, mid, at + 2, Gap(f, m))
  {
    assert f[..m - 1] + [f[m - 1]] == f[..m];
    ScanColons(t, at, mid, Gap(f, m));
  }

  lemma ScanAfter(f: Fields, m: nat, j: nat, t: seq<byte>, at: nat) returns (fin: State)
    requires m + 2 <= j <= 8
    requires Written(t, at, Part(f, j, |f|)) && |t| == at + |Part(f, j, |f|)|
    ensures Room(Gap(f, m)) && Scan(t, at, Gap(f, m)) == To(fin, |t|)
    ensures Room(fin) && fin.zero == Some(m) && Flushed(fin) == f[..m] + f[j..]
  {
    var s := Gap(f, m);
    if j < 8 {
      fin := Pending(s.out + f[j..|f| - 1], s.zero, s.seg + 7 - j, f[7]);
      ScanPart(t, at, f, j, |f|, s, |t|, fin);
    } else {
      fin := s;
    }
  }

  lemma ScanText(f: Fields, pos: nat, len: nat, t: seq<byte>) returns (fin: State)
    requires pos + len <= 8 && len >= 2 && t == Text(f, pos, len)
    ensures Scan(t, 0, START) == To(fin, |t|)
    ensures Room(fin) && fin.zero == Some(pos) && Flushed(fin) == f[..pos] + f[pos + len..]
  {
    assert Written(t, 0, t);
    WrittenSplit(t, 0, Part(f, 0, pos) + [COLON, COLON], Part(f, pos + len, |f|));
    WrittenSplit(t, 0, Part(f, 0, pos), [COLON, COLON]);
    ScanBefore(f, pos, t);
    fin := ScanAfter(f, pos, pos + len, t, |Part(f, 0, pos)| + 2);
  }

  lemma GapOpened(f: Fields, pos: nat, len: nat)
    requires Zeros(f, pos, len)
    ensures Opened(f[..pos] + f[pos + len..], pos) == f
  {
  }

  /** For every address, reading the text gives the address back and uses the whole text. */
  lemma TextReadsBack(f: Fields, pos: nat, len: nat, dst: seq<byte>)
    requires |dst| == 16 && pos + len <= 8 && (len > 0 ==> len >= 2 && Zeros(f, pos, len))
    ensures Decode(Text(f, pos, len), dst) == Ok(Octets(f, 0), |Text(f, pos, len)|)
  {
    var t := Text(f, pos, len);
    if len == 0 {
      var fin := ScanWhole(f, t);
      assert Octets(f, 0) + dst[16..] == Octets(f, 0);
    } else {
      var fin := ScanText(f, pos, len, t);
      GapOpened(f, pos, len);
    }
  }

  // ---- the two programs ----

  function Field(addr: seq<byte>, k: nat): u16
    requires |addr| == 16 && k < 8
  {
    DecU16(addr, 2 * k)
  }

  function FieldsOf(addr: seq<byte>): Fields
    requires |addr| == 16
  {
    seq(8, k requires 0 <= k < 8 => Field(addr, k))
  }

  lemma {:induction false} OctetsOfFields(addr: seq<byte>, k: nat)
    requires |addr| == 16 && k <= 8
    ensures Octets(FieldsOf(addr), k) == addr[2 * k..]
    decreases 8 - k
  {
    if k < 8 {
      OctetsOfFields(addr, k + 1);
      assert EncU16(Field(addr, k)) == [addr[2 * k], addr[2 * k + 1]];
    }
  }

  lemma Reassociated(a: seq<byte>, b: seq<byte>, c: seq<byte>, d: seq<byte>)
    ensures a + (b + c + d) == a + b + c + d
  {
  }

  lemma {:induction false} RestLast(f: Fields, k: nat, m: nat)
    requires k <= m < 8
    ensures Rest(f, k, m + 1) == Rest(f, k, m) + [COLON] + Hex(f[m])
    decreases m - k
  {
    if k < m {
      RestLast(f, k + 1, m);
      Reassociated([COLON] + Hex(f[k]), Rest(f, k + 1, m), [COLON], Hex(f[m]));
    } else {
      assert Rest(f, m + 1, m + 1) == [];
    }
  }

  lemma PartLast(f: Fields, k: nat, m: nat)
    requires k <= m < 8
    ensures Part(f, k, m + 1) == Part(f, k, m) + (if m > k then [COLON] else []) + Hex(f[m])
  {
    if k < m {
      RestLast(f, k + 1, m);
      Reassociated(Hex(f[k]), Rest(f, k + 1, m), [COLON], Hex(f[m]));
    } else {
      assert Rest(f, m + 1, m + 1) == [];
    }
  }

  lemma {:induction false} PartLength(f: Fields, k: nat, m: nat)
    requires k <= m <= 8
    ensures |Rest(f, k, m)| <= 5 * (m - k) && (k < m ==> |Part(f, k, m)| < 5 * (m - k))
    decreases m - k
  {
    if k < m { PartLength(f, k + 1, m); }
  }

  /** What the run search knows after `i` fields: the first longest run that has ended, and the run that has not. */
  ghost predicate RunsSeen(f: Fields, i: nat, pos: nat, len: nat, cur: nat) {
    && cur <= i <= 8 && Zeros(f, i - cur, cur) && (i > cur ==> f[i - cur - 1] != 0)
    && pos + len <= i - cur && Zeros(f, pos, len)
    && forall p: nat, l: nat :: p + l <= i - cur && Zeros(f, p, l) ==> l < len || (l == len && pos <= p) || l == 0
  }

  /** The search for the longest run of zeros. */
  method ZeroRun(f: Fields) returns (pos: nat, len: nat)
    ensures pos + len <= 8 && Shortens(f, pos, len)
  {
    var cur: nat := 0;
    pos, len := 0, 0;
    for i := 0 to 8
      invariant RunsSeen(f, i, pos, len, cur)
    {
      if f[i] == 0 {
        cur := cur + 1;
      } else {
        if cur > len { pos, len := i - cur, cur; }
        cur := 0;
      }
    }
    if cur > len { pos, len := 8 - cur, cur; }
    if len <= 1 { pos, len := 0, 0; }
  }

  /** The text of the first `i` fields. */
  function TextOf(f: Fields, pos: int, len: nat, i: nat): seq<byte>
    requires i <= 8 && (pos < 0 || i <= pos || pos + len <= i)
  {
    if pos < 0 || i <= pos then Part(f, 0, i) else Part(f, 0, pos) + [COLON, COLON] + Part(f, pos + len, i)
  }

  lemma TextOfNext(f: Fields, pos: int, len: nat, i: nat, text: seq<byte>)
    requires i < 8 && (pos < 0 || i < pos || pos + len < i) && text == TextOf(f, pos, len, i)
    ensures TextOf(f, pos, len, i + 1) == (if i > 0 then text + [COLON] else text) + Hex(f[i])
  {
    if pos < 0 || i < pos {
      PartLast(f, 0, i);
    } else {
      PartLast(f, pos + len, i);
      Reassociated(Part(f, 0, pos) + [COLON, COLON], Part(f, pos + len, i), [COLON], Hex(f[i]));
    }
  }

  lemma TextOfGap(f: Fields, pos: nat, len: nat, text: seq<byte>)
    requires pos + len < 8 && len > 0 && text == TextOf(f, pos, len, pos)
    ensures TextOf(f, pos, len, pos + len + 1) == text + [COLON] + [COLON] + Hex(f[pos + len])
  {
    var h, before := Hex(f[pos + len]), Part(f, 0, pos);
    assert Part(f, pos + len, pos + len + 1) == h by { PartLast(f, pos + len, pos + len); }
    assert before + [COLON, COLON] + h == before + [COLON] + [COLON] + h;
  }

  /** The loop of `ip6_str_encode`, with `pos` negative if no run is to be shortened. */
  method WriteText(f: Fields, pos: int, len: nat) returns (text: seq<byte>)
    requires if pos < 0 then len == 0 else len > 0 && pos + len <= 8
    ensures text == Text(f, if pos < 0 then 0 else pos, len)
  {
    text := [];
    var i := 0;
    while i < 8
      invariant i <= 8 && (pos < 0 || i <= pos || pos + len < i) && text == TextOf(f, pos, len, i)
    {
      if i != pos { TextOfNext(f, pos, len, i, text); } else if pos + len < 8 { TextOfGap(f, pos, len, text); }
      if i > 0 || i == pos {
        text := text + [COLON];
        if i == pos {
          text := text + [COLON];
          i := i + len;
          if i >= 8 { break; }
        }
      }
      var h := ToHex(f[i]);
      text := text + h;
      i := i + 1;
    }
  }

  lemma TextFits(f: Fields, pos: nat, len: nat, t: seq<byte>)
    requires pos + len <= 8 && (len > 0 ==> len >= 2) && t == Text(f, pos, len)
    ensures |t| < IP6_ADDR_STRLEN
  {
    PartLength(f, 0, if len > 0 then pos else 8);
    PartLength(f, pos + len, 8);
  }

  /** `ip6_str_encode` with IP6_STR_NOIPV4: nothing if the buffer is smaller than any address needs; otherwise a
      text that fits it with its terminator, shortened where RFC 5952 says, and reads back as the address. */
  method Encode(addr: seq<byte>, brackets: bool, size: nat) returns (text: seq<byte>)
    requires |addr| == 16
    ensures size < IP6_ADDR_STRLEN + (if brackets then 2 else 0) ==> text == []
    ensures size >= IP6_ADDR_STRLEN + (if brackets then 2 else 0) ==>
              exists pos: nat, len: nat, t: seq<byte> ::
                && pos + len <= 8 && Shortens(FieldsOf(addr), pos, len) && t == Text(FieldsOf(addr), pos, len)
                && text == (if brackets then [91] + t + [93] else t) && |text| < size
                && (forall dst: seq<byte> :: |dst| == 16 ==> Decode(t, dst) == Ok(addr, |t|))
  {
    var need := IP6_ADDR_STRLEN + if brackets then 2 else 0;
    if size < need { return []; }
    var f := FieldsOf(addr);
    var pos, len := ZeroRun(f);
    var t := WriteText(f, if len > 0 then pos else -1, len);
    OctetsOfFields(addr, 0);
    forall dst: seq<byte> | |dst| == 16 ensures Decode(t, dst) == Ok(addr, |t|) {
      TextReadsBack(f, pos, len, dst);
    }
    TextFits(f, pos, len, t);
    text := if brackets then [91] + t + [93] else t;
  }

  lemma {:induction false} OctetsJoin(a: seq<u16>, b: seq<u16>, k: nat)
    requires k <= |a|
    ensures Octets(a + b, k) == Octets(a, k) + Octets(b, 0)
    decreases |a| - k
  {
    if k < |a| { OctetsJoin(a, b, k + 1); } else { OctetsShift(a, b, 0); }
  }

  lemma {:induction false} OctetsShift(a: seq<u16>, b: seq<u16>, k: nat)
    requires k <= |b|
    ensures Octets(a + b, |a| + k) == Octets(b, k)
    decreases |b| - k
  {
    if k < |b| { OctetsShift(a, b, k + 1); }
  }

  lemma {:induction false} OctetsZeros(z: seq<u16>, k: nat)
    requires k <= |z| && forall i :: 0 <= i < |z| ==> z[i] == 0
    ensures Octets(z, k) == Repeated<byte>(2 * (|z| - k), 0)
    decreases |z| - k
  {
    if k < |z| {
      OctetsZeros(z, k + 1);
      assert EncU16(z[k]) == [0, 0];
    }
  }

  lemma Apart(whole: seq<byte>, a: seq<byte>, b: seq<byte>)
    requires whole == a + b
    ensures whole[..|a|] == a && whole[|a|..] == b
  {
  }

  lemma OctetsJoin3(a: seq<u16>, b: seq<u16>, c: seq<u16>)
    ensures Octets(a + b + c, 0) == Octets(a, 0) + Octets(b, 0) + Octets(c, 0)
  {
    OctetsJoin(a, b, 0);
    OctetsJoin(a + b, c, 0);
  }

  lemma OctetsOpened(out: seq<u16>, z: nat)
    requires z <= |out| <= 8
    ensures Octets(Opened(out, z), 0) == Octets(out[..z], 0) + Repeated<byte>(16 - 2 * |out|, 0) + Octets(out[z..], 0)
  {
    OctetsZeros(Repeated<u16>(8 - |out|, 0), 0);
    OctetsJoin3(out[..z], Repeated<u16>(8 - |out|, 0), out[z..]);
  }

  lemma OctetsSplit(out: seq<u16>, a: seq<u16>, b: seq<u16>)
    requires out == a + b
    ensures Octets(out, 0)[..2 * |a|] == Octets(a, 0) && Octets(out, 0)[2 * |a|..] == Octets(b, 0)
  {
    OctetsJoin(a, b, 0);
    Apart(Octets(out, 0), Octets(a, 0), Octets(b, 0));
  }

  /** The bytes from `zp` up to `dp` moved to the end of the destination, and zeros put where they were. */
  method MoveUp(dst: array<byte>, zp: nat, dp: nat)
    requires dst.Length == 16 && zp <= dp <= 16
    modifies dst
    ensures dst[..] == old(dst[..zp]) + Repeated<byte>(16 - dp, 0) + old(dst[zp..dp])
  {
    var move := dp - zp;
    forall k | 0 <= k < move { dst[16 - move + k] := dst[zp + k]; }
    forall k | zp <= k < 16 - move { dst[k] := 0; }
  }

  method OpenGap(dst: array<byte>, zp: nat, dp: nat, ghost out: seq<u16>, ghost z: nat)
    requires dst.Length == 16 && z <= |out| <= 8 && zp == 2 * z && dp == 2 * |out| && dst[..dp] == Octets(out, 0)
    modifies dst
    ensures dst[..] == Octets(Opened(out, z), 0)
  {
    OctetsOpened(out, z);
    OctetsSplit(out, out[..z], out[z..]);
    assert dst[..zp] == dst[..dp][..zp] && dst[zp..dp] == dst[..dp][zp..];
    MoveUp(dst, zp, dp);
  }

  /** `enc_u16` at `dp`. */
  method Store(dst: array<byte>, dp: nat, v: u16, ghost out: seq<u16>)
    requires dp + 2 <= dst.Length && dst[..dp] == Octets(out, 0) && dp == 2 * |out|
    modifies dst
    ensures dst[..dp + 2] == Octets(out + [v], 0) && dst[dp + 2..] == old(dst[dp + 2..])
  {
    OctetsJoin(out, [v], 0);
    assert Octets([v], 0) == EncU16(v) by { assert Octets([v], 1) == []; }
    dst[dp] := v / 256;
    dst[dp + 1] := v % 256;
  }

  /** What the decoder holds, as the state of the scan. */
  ghost predicate Held(s: State, dp: nat, zp: int, hex: nat, seg: nat, acc: nat) {
    && Room(s) && dp == 2 * |s.out| && s.hex == hex && s.seg == seg && s.acc == acc
    && s.zero == (if zp < 0 then None else Some(zp / 2)) && (zp >= 0 ==> zp % 2 == 0)
  }

  /** The end of `ip6_str_decode`. */
  method DecodeEnd(dst: array<byte>, dp: nat, zp: int, hex: nat, seg: nat, acc: nat, used: nat, ghost s: State,
                   ghost was: seq<byte>)
    returns (n: nat)
    requires dst.Length == |was| == 16 && Held(s, dp, zp, hex, seg, acc)
    requires dst[..dp] == Octets(s.out, 0) && dst[dp..] == was[dp..]
    modifies dst
    ensures var r := Finish(s, used, was); if r.Ok? then n == used && dst[..] == r.addr else n == 0
  {
    var dp', seg' := dp, seg;
    if hex > 0 {
      Store(dst, dp, acc, s.out);
      dp', seg' := dp + 2, seg + 1;
    }
    ghost var out := Flushed(s);
    assert dst[..dp'] == Octets(out, 0) && dst[dp'..] == was[dp'..];
    if zp >= 0 {
      OpenGap(dst, zp, dp', out, zp / 2);
      seg' := 8;
    }
    if seg' != 8 { return 0; }
    return used;
  }

  lemma ScanStep(t: seq<byte>, i: nat, s: State, s': State)
    requires Room(s) && i < |t| && IsHex(t[i]) && s.hex < 4
    requires s' == s.(hex := s.hex + 1, acc := s.acc * 16 + HexValue(t[i]))
    ensures Room(s') && Scan(t, i, s) == Scan(t, i + 1, s')
  {
  }

  /** A colon: the field before it written, and where a second colon follows, its place noted. */
  method Colon(t: seq<byte>, i: nat, dst: array<byte>, dp: nat, zp: int, hex: nat, acc: nat, ghost seg: nat,
               ghost s: State)
    returns (i': nat, dp': nat, zp': int, ghost s': State)
    requires dst.Length == 16 && i < |t| && t[i] == COLON && Held(s, dp, zp, hex, seg, acc) && (hex > 0 ==> seg < 7)
    requires i + 1 < |t| && t[i + 1] == COLON ==> zp < 0
    requires dst[..dp] == Octets(s.out, 0)
    modifies dst
    ensures i < i' <= |t| && Held(s', dp', zp', 0, seg + 1, 0) && Scan(t, i, s) == Scan(t, i', s') && dp <= dp'
    ensures dst[..dp'] == Octets(s'.out, 0) && dst[dp'..] == old(dst[dp'..])
  {
    i', dp', zp' := i + 1, dp, zp;
    if hex > 0 {
      Store(dst, dp, acc, s.out);
      dp' := dp + 2;
    }
    if i' < |t| && t[i'] == COLON {
      zp' := dp';
      i' := i' + 1;
      s' := State(Flushed(s), Some(|Flushed(s)|), 0, s.seg + 1, 0);
      ScanColons(t, i, s, s');
    } else {
      s' := State(Flushed(s), s.zero, 0, s.seg + 1, 0);
      ScanColon(t, i, s, s');
    }
  }

  /** `ip6_str_decode`, whatever the text: no write outside the sixteen bytes, and the result of the scan. */
  method DecodeInto(t: seq<byte>, dst: array<byte>) returns (n: nat, dotted: bool)
    requires dst.Length == 16
    modifies dst
    ensures match Decode(t, old(dst[..]))
            case Ok(addr, used) => n == used && !dotted && dst[..] == addr
            case Bad => n == 0 && !dotted
            case Dotted => n == 0 && dotted
  {
    ghost var was, s := dst[..], START;
    var i, dp, zp, hex, seg, acc: nat := 0, 0, -1, 0, 0, 0;
    while i < |t|
      invariant i <= |t| && Held(s, dp, zp, hex, seg, acc) && dst[..dp] == Octets(s.out, 0) && dst[dp..] == was[dp..]
      invariant Scan(t, i, s) == Scan(t, 0, START)
      decreases |t| - i
    {
      var c := t[i];
      if IsHex(c) {
        hex := hex + 1;
        if hex > 4 { return 0, false; }
        var d := HexToNibble(c);
        acc := acc * 16 + d;
        ghost var s' := s.(hex := hex, acc := acc);
        ScanStep(t, i, s, s');
        s, i := s', i + 1;
      } else if c == COLON {
        if hex > 0 && seg >= 7 { return 0, false; }
        if i + 1 < |t| && t[i + 1] == COLON && zp >= 0 { return 0, false; }
        i, dp, zp, s := Colon(t, i, dst, dp, zp, hex, acc, seg, s);
        hex, acc, seg := 0, 0, seg + 1;
      } else if c == DOT {
        if seg > 6 { return 0, false; }
        return 0, true;
      } else {
        i := i + 1;
        break;
      }
    }
    assert Scan(t, 0, START) == To(s, i);
    n := DecodeEnd(dst, dp, zp, hex, seg, acc, i, s, was);
    dotted := false;
  }
}
