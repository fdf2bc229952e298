/** DNS name compression (section 4.1.4 of RFC 1035): what the encoder writes for a name, what the
    decoder reads at an offset, and why the second undoes the first. A name is a byte string with
    labels separated by dots, the root being the empty string; a suffix of it is a position in it. */
module DnsName {
  import opened Bytes

  const DOT: byte := 46
  const HDR_LEN := 12
  const NAME_MAXLEN := 255
  const NAME_MAXSTR := 253
  const LABEL_MAXSTR := 63
  const COMP_PTR := 0xC0
  const PTR_LIMIT := 0x4000
  const MAX_JMP := 16
  const MAX_SUFFIX := 32

  /** Position of the first dot at or after `k`, or the length of the name. */
  function DotFrom(name: seq<byte>, k: nat): (r: nat)
    requires k <= |name|
    ensures k <= r <= |name| && (r < |name| ==> name[r] == DOT)
    ensures forall j :: k <= j < r ==> name[j] != DOT
    decreases |name| - k
  {
    if k == |name| || name[k] == DOT then k else DotFrom(name, k + 1)
  }

  /** Where the label after the one at `k` begins; the length of the name after the last. */
  function After(name: seq<byte>, k: nat): (r: nat)
    requires k <= |name|
    ensures r <= |name| && (k < |name| ==> k < r)
  {
    if DotFrom(name, k) < |name| then DotFrom(name, k) + 1 else |name|
  }

  /** The label at `k` is neither empty nor over 63 bytes, and no trailing dot follows it. */
  predicate GoodLabel(name: seq<byte>, k: nat)
    requires k <= |name|
  {
    1 <= DotFrom(name, k) - k <= LABEL_MAXSTR && DotFrom(name, k) + 1 != |name|
  }

  predicate WellFormed(name: seq<byte>, k: nat)
    requires k <= |name|
    decreases |name| - k
  {
    k < |name| ==> GoodLabel(name, k) && WellFormed(name, After(name, k))
  }

  function Labels(name: seq<byte>, k: nat): nat
    requires k <= |name|
    decreases |name| - k
  {
    if k == |name| then 0 else 1 + Labels(name, After(name, k))
  }

  /** `a` from `i` on and `b` from `j` on are equal up to ASCII case. */
  predicate CaseEqFrom(a: seq<byte>, i: nat, b: seq<byte>, j: nat)
    requires i <= |a| && j <= |b|
  {
    |a| - i == |b| - j && forall k :: j <= k < |b| ==> LowerByte(a[k - j + i]) == LowerByte(b[k])
  }

  // ---- encoder ----

  /** The packet spells `name` from `from` on at `offset`. */
  datatype Suffix = Suffix(name: seq<byte>, from: nat, offset: nat)

  datatype Encoded = Encoded(bytes: seq<byte>, table: seq<Suffix>) | TooLong(table: seq<Suffix>)

  /** Entry `i` of the table. */
  function Known(table: seq<Suffix>, i: nat): Suffix
    requires i < |table|
  {
    table[i]
  }

  predicate Usable(s: Suffix, start: nat, name: seq<byte>, k: nat)
    requires k <= |name|
  {
    s.offset < start && s.from <= |s.name| && CaseEqFrom(s.name, s.from, name, k)
  }

  /** Index, from `i` on, of the first suffix that was recorded before this name began and equals it up
      to case; the table size if there is none. */
  function Find(table: seq<Suffix>, start: nat, name: seq<byte>, k: nat, i: nat): (r: nat)
    requires i <= |table| && k <= |name|
    ensures i <= r <= |table| && (r < |table| ==> Usable(Known(table, r), start, name, k))
    decreases |table| - i
  {
    if i == |table| || Usable(Known(table, i), start, name, k) then i else Find(table, start, name, k, i + 1)
  }

  /** A compression pointer: 16 bits, the top two set. Only 14 bits are left for the offset. */
  function PtrBytes(offset: nat): (b: seq<byte>)
    ensures |b| == 2 && b[0] >= COMP_PTR
  {
    EncU16(0xC000 + offset % PTR_LIMIT)
  }

  function Remember(table: seq<Suffix>, name: seq<byte>, k: nat, pos: nat): (t: seq<Suffix>)
    ensures |table| <= |t|
  {
    if |table| < MAX_SUFFIX then table + [Suffix(name, k, pos % 0x1_0000)] else table
  }

  /** What is written at `pos` for `name` from `k` on, for a name that began at `start`. */
  function Encode(table: seq<Suffix>, start: nat, pos: nat, name: seq<byte>, k: nat): (r: Encoded)
    requires k <= |name|
    ensures r.Encoded? ==> 1 <= |r.bytes| <= |name| - k + 2
    ensures |table| <= MAX_SUFFIX ==> |r.table| <= MAX_SUFFIX
    ensures |table| <= |r.table|
    decreases |name| - k
  {
    if k == |name| then Encoded([0], table)
    else
      var i := Find(table, start, name, k, 0);
      if i < |table| then Encoded(PtrBytes(Known(table, i).offset), table)
      else
        var table' := Remember(table, name, k, pos);
        var l := DotFrom(name, k) - k;
        if l > LABEL_MAXSTR then TooLong(table')
        else
          var r := Encode(table', start, pos + 1 + l, name, After(name, k));
          if r.TooLong? then r
          else Encoded([l as byte] + Piece(name, k, l) + r.bytes, r.table)
  }

  /** Encoding a name only adds suffixes. */
  lemma {:induction false} EncodeKeeps(table: seq<Suffix>, start: nat, pos: nat, name: seq<byte>, k: nat, i: nat)
    requires k <= |name| && i < |table|
    ensures Known(Encode(table, start, pos, name, k).table, i) == Known(table, i)
    decreases |name| - k
  {
    if k < |name| && Find(table, start, name, k, 0) == |table| && DotFrom(name, k) - k <= LABEL_MAXSTR {
      EncodeKeeps(Remember(table, name, k, pos), start, pos + 1 + DotFrom(name, k) - k, name, After(name, k), i);
    }
  }

  // ---- decoder ----

  datatype NameError = BadJump | MaxJump | NameLen | OutLen | NoNull

  /** The text still to be written, without its terminator, and how far the offset still advances. */
  datatype Tail = Text(text: seq<byte>, adv: nat) | Bad(error: NameError)

  function Prepend(text: seq<byte>, adv: nat, t: Tail): Tail {
    if t.Text? then Text(text + t.text, adv + t.adv) else t
  }

  function Advance(adv: nat, t: Tail): Tail {
    if t.Text? then t.(adv := adv + t.adv) else t
  }

  function Target(pkt: seq<byte>, idx: nat): nat
    requires idx + 1 < |pkt| && pkt[idx] >= COMP_PTR
  {
    (pkt[idx] as int - COMP_PTR) * 256 + pkt[idx + 1] as int
  }

  /** What the decoder meets at `idx`: the end of the name, a jump, a label of `len` bytes (followed by
      a dot in the output unless a zero byte or the packet's end comes next), or an error. */
  datatype Head = End | Jump(target: nat) | Label(len: nat, dot: seq<byte>) | Fail(error: NameError)

  function HeadAt(pkt: seq<byte>, idx: nat, njmp: nat, room: nat): (h: Head)
    ensures h.Jump? ==> njmp <= MAX_JMP && idx + 1 < |pkt|
    ensures h.Label? ==> 1 <= h.len && idx + 1 + h.len <= |pkt| && h.len + |h.dot| <= room
    ensures h.End? ==> idx < |pkt| && room > 0
  {
    if idx >= |pkt| then Fail(NoNull)
    else if pkt[idx] >= COMP_PTR then
      if idx + 1 == |pkt| then Fail(BadJump)
      else if njmp > MAX_JMP then Fail(MaxJump)
      else
        var t := Target(pkt, idx);
        if t < HDR_LEN || t > |pkt| then Fail(BadJump) else Jump(t)
    else
      var len: nat := pkt[idx] as int;
      if len > |pkt| - (idx + 1) then Fail(NameLen)
      else if len > room then Fail(OutLen)
      else if len == 0 then (if room == 0 then Fail(OutLen) else End)
      else if room == len then Fail(OutLen)
      else Label(len, if idx + 1 + len < |pkt| && pkt[idx + 1 + len] != 0 then [DOT] else [])
  }

  /** Decoding from `idx` after `njmp` jumps with `room` bytes of output left, on arbitrary bytes: the
      text and its terminator fit the room, and the offset moves forward, never past the packet. */
  function Decode(pkt: seq<byte>, idx: nat, njmp: nat, room: nat): (r: Tail)
    requires njmp <= MAX_JMP + 1
    ensures r.Text? ==> |r.text| < room
    ensures r.Text? ==> if njmp == 0 then 1 <= r.adv && idx + r.adv <= |pkt| else r.adv == 0
    decreases MAX_JMP + 1 - njmp, |pkt| - idx
  {
    match HeadAt(pkt, idx, njmp, room)
    case Fail(e) => Bad(e)
    case End => Text([], if njmp == 0 then 1 else 0)
    case Jump(t) => Advance(if njmp == 0 then 2 else 0, Decode(pkt, t, njmp + 1, room))
    case Label(len, dot) =>
      Prepend(Piece(pkt, idx + 1, len) + dot, if njmp == 0 then 1 + len else 0,
              Decode(pkt, idx + 1 + len, njmp, room - len - |dot|))
  }

  // ---- a name in a packet ----

  /** The `l` bytes of the name at `k` stand at `at`, up to case. */
  predicate SameLabel(pkt: seq<byte>, at: nat, name: seq<byte>, k: nat, l: nat)
    requires at + l <= |pkt| && k + l <= |name|
  {
    forall i :: k <= i < k + l ==> LowerByte(pkt[at + i - k]) == LowerByte(name[i])
  }

  /** A pointer that leads strictly backwards, past the header, to a non-empty label. */
  ghost predicate JumpAt(pkt: seq<byte>, off: nat, f: set<nat>)
    requires off < |pkt| && pkt[off] >= COMP_PTR
  {
    && off + 1 < |pkt| && off + 1 in f
    && HDR_LEN <= Target(pkt, off) < off && 1 <= pkt[Target(pkt, off)] <= LABEL_MAXSTR
  }

  /** The label of a name at `k`. */
  ghost predicate LabelAt(pkt: seq<byte>, off: nat, name: seq<byte>, k: nat, f: set<nat>)
    requires off < |pkt| && k <= |name|
  {
    var l := DotFrom(name, k) - k;
    && GoodLabel(name, k) && pkt[off] == l && off + 1 + l <= |pkt|
    && (forall i :: off < i <= off + l ==> i in f)
    && SameLabel(pkt, off + 1, name, k, l)
  }

  /** The packet spells `name` from `k` on at `off`, up to case, reading only bytes in `f`. As pointers
      lead strictly backwards, chains of them are acyclic. */
  ghost predicate NameAt(pkt: seq<byte>, off: nat, name: seq<byte>, k: nat, f: set<nat>)
    requires k <= |name|
    decreases |name| - k, off
  {
    && off < |pkt| && off in f
    && if k == |name| then pkt[off] == 0
       else if pkt[off] >= COMP_PTR then JumpAt(pkt, off, f) && NameAt(pkt, Target(pkt, off), name, k, f)
       else LabelAt(pkt, off, name, k, f) && NameAt(pkt, off + 1 + DotFrom(name, k) - k, name, After(name, k), f)
  }

  /** Pointers followed when reading the name. */
  ghost function Hops(pkt: seq<byte>, off: nat, name: seq<byte>, k: nat, f: set<nat>): nat
    requires k <= |name| && NameAt(pkt, off, name, k, f)
    decreases |name| - k, off
  {
    if k == |name| then 0
    else if pkt[off] >= COMP_PTR then 1 + Hops(pkt, Target(pkt, off), name, k, f)
    else Hops(pkt, off + 1 + DotFrom(name, k) - k, name, After(name, k), f)
  }

  /** Bytes the name takes in place, up to its end or first pointer. */
  ghost function Span(pkt: seq<byte>, off: nat, name: seq<byte>, k: nat, f: set<nat>): nat
    requires k <= |name| && NameAt(pkt, off, name, k, f)
    decreases |name| - k
  {
    if k == |name| then 1
    else if pkt[off] >= COMP_PTR then 2
    else
      var l := DotFrom(name, k) - k;
      1 + l + Span(pkt, off + 1 + l, name, After(name, k), f)
  }

  /** At most one jump per label. */
  lemma {:induction false} HopsAtMostLabels(pkt: seq<byte>, off: nat, name: seq<byte>, k: nat, f: set<nat>)
    requires k <= |name| && NameAt(pkt, off, name, k, f)
    ensures Hops(pkt, off, name, k, f) <= Labels(name, k)
    ensures pkt[off] < COMP_PTR && k < |name| ==> Hops(pkt, off, name, k, f) < Labels(name, k)
    decreases |name| - k, off
  {
    if k < |name| {
      if pkt[off] >= COMP_PTR {
        HopsAtMostLabels(pkt, Target(pkt, off), name, k, f);
      } else {
        HopsAtMostLabels(pkt, off + 1 + DotFrom(name, k) - k, name, After(name, k), f);
      }
    }
  }

  lemma {:induction false} CaseEqDots(a: seq<byte>, i: nat, b: seq<byte>, j: nat)
    requires i <= |a| && j <= |b| && CaseEqFrom(a, i, b, j)
    ensures DotFrom(a, i) - i == DotFrom(b, j) - j && After(a, i) - i == After(b, j) - j
    decreases |a| - i
  {
    if i < |a| {
      assert LowerByte(a[i]) == LowerByte(b[j]);
      if a[i] != DOT { CaseEqDots(a, i + 1, b, j + 1); }
    }
  }

  lemma {:induction false} NameAtCase(pkt: seq<byte>, off: nat, a: seq<byte>, i: nat, b: seq<byte>, j: nat, f: set<nat>)
    requires i <= |a| && j <= |b| && NameAt(pkt, off, a, i, f) && CaseEqFrom(a, i, b, j)
    ensures NameAt(pkt, off, b, j, f)
    decreases |a| - i, off
  {
    if i < |a| {
      if pkt[off] >= COMP_PTR {
        NameAtCase(pkt, Target(pkt, off), a, i, b, j, f);
      } else {
        CaseEqDots(a, i, b, j);
        var l := DotFrom(a, i) - i;
        NameAtCase(pkt, off + 1 + l, a, After(a, i), b, After(b, j), f);
        assert SameLabel(pkt, off + 1, b, j, l);
      }
    }
  }

  /** `q` agrees with `p` on the bytes in `f`. */
  ghost predicate Agree(p: seq<byte>, q: seq<byte>, f: set<nat>) {
    forall i :: i in f && i < |p| ==> i < |q| && q[i] == p[i]
  }

  /** A name survives any change of the packet outside the bytes it is read from. */
  lemma {:induction false} NameAtFrame(p: seq<byte>, q: seq<byte>, off: nat, name: seq<byte>, k: nat,
                                       f: set<nat>, g: set<nat>)
    requires k <= |name| && NameAt(p, off, name, k, f) && f <= g && Agree(p, q, f)
    ensures NameAt(q, off, name, k, g)
    ensures Span(q, off, name, k, g) == Span(p, off, name, k, f)
    decreases |name| - k, off
  {
    if k < |name| {
      if p[off] >= COMP_PTR {
        assert Target(q, off) == Target(p, off);
        NameAtFrame(p, q, Target(p, off), name, k, f, g);
      } else {
        var l := DotFrom(name, k) - k;
        NameAtFrame(p, q, off + 1 + l, name, After(name, k), f, g);
        assert SameLabel(q, off + 1, name, k, l);
      }
    }
  }

  // ---- the decoder reads what the packet spells ----

  /** `text` is the name from `k` on, up to case. */
  predicate Reads(text: seq<byte>, name: seq<byte>, k: nat)
    requires k <= |name|
  {
    |text| == |name| - k && forall i :: 0 <= i < |text| ==> LowerByte(text[i]) == LowerByte(name[k + i])
  }

  /** Decoding at a spelled name gives the name, up to case, and stops at its end, exactly when it needs
      no more than 17 jumps; otherwise it reports a jump loop. */
  lemma {:induction false} DecodeReads(pkt: seq<byte>, off: nat, name: seq<byte>, k: nat, f: set<nat>,
                                       njmp: nat, room: nat)
    requires k <= |name| && NameAt(pkt, off, name, k, f) && njmp <= MAX_JMP + 1 && |name| - k < room
    ensures var r := Decode(pkt, off, njmp, room);
            if njmp + Hops(pkt, off, name, k, f) <= MAX_JMP + 1 then
              r.Text? && Reads(r.text, name, k) && r.adv == if njmp == 0 then Span(pkt, off, name, k, f) else 0
            else r == Bad(MaxJump)
    decreases |name| - k, off
  {
    if k < |name| {
      if pkt[off] >= COMP_PTR {
        if njmp <= MAX_JMP { DecodeReads(pkt, Target(pkt, off), name, k, f, njmp + 1, room); }
      } else {
        DecodeLabel(pkt, off, name, k, f, njmp, room);
      }
    }
  }

  lemma {:induction false} DecodeLabel(pkt: seq<byte>, off: nat, name: seq<byte>, k: nat, f: set<nat>,
                                       njmp: nat, room: nat)
    requires k < |name| && NameAt(pkt, off, name, k, f) && njmp <= MAX_JMP + 1 && |name| - k < room
    requires pkt[off] < COMP_PTR
    ensures var r := Decode(pkt, off, njmp, room);
            if njmp + Hops(pkt, off, name, k, f) <= MAX_JMP + 1 then
              r.Text? && Reads(r.text, name, k) && r.adv == if njmp == 0 then Span(pkt, off, name, k, f) else 0
            else r == Bad(MaxJump)
    decreases |name| - k, off, 0
  {
    var l, after := DotFrom(name, k) - k, After(name, k);
    var next, lab := off + 1 + l, Piece(pkt, off + 1, l);
    var dot := if after == |name| then [] else [DOT];
    LabelStep(pkt, off, name, k, f, njmp, room, l, next, dot, lab);
    DecodeReads(pkt, next, name, after, f, njmp, room - l - |dot|);
    LabelReads(Decode(pkt, off, njmp, room), Decode(pkt, next, njmp, room - l - |dot|), lab, dot, name, k,
               if njmp == 0 then 1 + l else 0);
  }

  /** Over a label: what is left of the name stands after it. */
  lemma LabelStep(pkt: seq<byte>, off: nat, name: seq<byte>, k: nat, f: set<nat>, njmp: nat, room: nat,
                  l: nat, next: nat, dot: seq<byte>, lab: seq<byte>)
    requires k < |name| && NameAt(pkt, off, name, k, f) && njmp <= MAX_JMP + 1 && |name| - k < room
    requires pkt[off] < COMP_PTR && l == DotFrom(name, k) - k && next == off + 1 + l <= |pkt|
    requires dot == (if After(name, k) == |name| then [] else [DOT]) && lab == Piece(pkt, off + 1, l)
    ensures NameAt(pkt, next, name, After(name, k), f) && |name| - After(name, k) < room - l - |dot|
    ensures Hops(pkt, off, name, k, f) == Hops(pkt, next, name, After(name, k), f)
    ensures Span(pkt, off, name, k, f) == 1 + l + Span(pkt, next, name, After(name, k), f)
    ensures DotFrom(name, k) + 1 != |name| && SameLabel(lab, 0, name, k, l)
    ensures Decode(pkt, off, njmp, room)
            == Prepend(lab + dot, if njmp == 0 then 1 + l else 0, Decode(pkt, next, njmp, room - l - |dot|))
  {
    HeadOfLabel(pkt, off, name, k, f, njmp, room);
  }

  lemma LabelReads(r: Tail, t: Tail, lab: seq<byte>, dot: seq<byte>, name: seq<byte>, k: nat, n: nat)
    requires k < |name| && |lab| == DotFrom(name, k) - k && DotFrom(name, k) + 1 != |name|
    requires dot == if After(name, k) == |name| then [] else [DOT]
    requires SameLabel(lab, 0, name, k, |lab|) && (t.Text? ==> Reads(t.text, name, After(name, k)))
    requires r == Prepend(lab + dot, n, t)
    ensures if t.Text? then r.Text? && Reads(r.text, name, k) && r.adv == n + t.adv else r == t
  {
    if t.Text? { LabelText(lab, name, k, t.text); }
  }

  lemma HeadOfLabel(pkt: seq<byte>, off: nat, name: seq<byte>, k: nat, f: set<nat>, njmp: nat, room: nat)
    requires k < |name| && NameAt(pkt, off, name, k, f) && |name| - k < room && pkt[off] < COMP_PTR
    ensures HeadAt(pkt, off, njmp, room)
            == Label(DotFrom(name, k) - k, if After(name, k) == |name| then [] else [DOT])
  {
  }

  lemma LabelText(lab: seq<byte>, name: seq<byte>, k: nat, text: seq<byte>)
    requires k < |name| && |lab| == DotFrom(name, k) - k && DotFrom(name, k) + 1 != |name|
    requires Reads(text, name, After(name, k))
    requires SameLabel(lab, 0, name, k, |lab|)
    ensures Reads(lab + (if After(name, k) == |name| then [] else [DOT]) + text, name, k)
  {
    var all := lab + (if After(name, k) == |name| then [] else [DOT]) + text;
    forall i | 0 <= i < |all|
      ensures LowerByte(all[i]) == LowerByte(name[k + i])
    {
      if i > |lab| { assert all[i] == text[i - |lab| - 1]; }
    }
  }

  // ---- the packet spells what the encoder wrote ----

  ghost predicate SuffixOk(p: seq<byte>, s: Suffix, f: set<nat>) {
    && HDR_LEN <= s.offset < PTR_LIMIT && s.offset < |p| && s.from < |s.name|
    && 1 <= p[s.offset] <= LABEL_MAXSTR && NameAt(p, s.offset, s.name, s.from, f)
  }

  /** A pointer leads back to the offset it was made from exactly when the offset fits 14 bits. */
  lemma PtrReadsBack(p: seq<byte>, pos: nat, offset: nat)
    requires Written(p, pos, PtrBytes(offset))
    ensures p[pos] >= COMP_PTR && (Target(p, pos) == offset <==> offset < PTR_LIMIT)
  {
    var b := PtrBytes(offset);
    assert p[pos + 0] == b[0] && p[pos + 1] == b[1];
  }

  lemma WrittenPiece(p: seq<byte>, at: nat, b: seq<byte>)
    requires Written(p, at, b)
    ensures Piece(p, at, |b|) == b
  {
  }

  /** A length byte, a label and what follows them, read apart. */
  lemma WrittenLabel(p: seq<byte>, pos: nat, l: byte, lab: seq<byte>, tail: seq<byte>)
    requires Written(p, pos, [l] + lab + tail)
    ensures p[pos] == l && Written(p, pos + 1, lab) && Written(p, pos + 1 + |lab|, tail)
  {
    WrittenSplit(p, pos, [l] + lab, tail);
    WrittenSplit(p, pos, [l], lab);
    assert p[pos + 0] == [l][0];
  }

  /** The bytes written for (the rest of) a name stand at `pos`, below offset 0x4000 and inside `f`, and
      the suffixes recorded before the name began are spelled at their offsets. */
  ghost predicate Laid(p: seq<byte>, table: seq<Suffix>, start: nat, pos: nat, name: seq<byte>, k: nat, f: set<nat>)
    requires k <= |name|
  {
    var r := Encode(table, start, pos, name, k);
    && HDR_LEN <= start <= pos && r.Encoded? && Written(p, pos, r.bytes) && pos + |r.bytes| <= PTR_LIMIT
    && (forall i :: pos <= i < pos + |r.bytes| ==> i in f)
    && (forall i :: 0 <= i < |table| && Known(table, i).offset < start ==> SuffixOk(p, Known(table, i), f))
  }

  /** The packet spells the name there, in exactly those bytes, and every suffix recorded on the way is
      spelled at its recorded offset. */
  ghost predicate Spelled(p: seq<byte>, table: seq<Suffix>, start: nat, pos: nat, name: seq<byte>, k: nat, f: set<nat>)
    requires k <= |name|
  {
    var r := Encode(table, start, pos, name, k);
    && r.Encoded? && NameAt(p, pos, name, k, f) && Span(p, pos, name, k, f) == |r.bytes|
    && forall i :: |table| <= i < |r.table| ==> SuffixOk(p, Known(r.table, i), f)
  }

  lemma {:induction false} EncodeSpells(p: seq<byte>, table: seq<Suffix>, start: nat, pos: nat,
                                        name: seq<byte>, k: nat, f: set<nat>)
    requires k <= |name| && WellFormed(name, k) && Laid(p, table, start, pos, name, k, f)
    ensures Spelled(p, table, start, pos, name, k, f)
    decreases |name| - k
  {
    if k == |name| {
      assert p[pos + 0] == [0][0];
    } else {
      var i := Find(table, start, name, k, 0);
      if i < |table| {
        SpelledByPointer(p, table, start, pos, name, k, f);
      } else {
        var table', next := Remember(table, name, k, pos), pos + 1 + DotFrom(name, k) - k;
        LaidRest(p, table, start, pos, name, k, f);
        EncodeSpells(p, table', start, next, name, After(name, k), f);
        SpelledWhole(p, table, start, pos, name, k, f);
      }
    }
  }

  lemma SpelledByPointer(p: seq<byte>, table: seq<Suffix>, start: nat, pos: nat, name: seq<byte>, k: nat, f: set<nat>)
    requires k < |name| && Laid(p, table, start, pos, name, k, f) && Find(table, start, name, k, 0) < |table|
    ensures Spelled(p, table, start, pos, name, k, f)
  {
    var s := Known(table, Find(table, start, name, k, 0));
    PtrReadsBack(p, pos, s.offset);
    NameAtCase(p, s.offset, s.name, s.from, name, k, f);
  }

  /** A label in place leaves the rest of the name in place after it. */
  lemma LaidRest(p: seq<byte>, table: seq<Suffix>, start: nat, pos: nat, name: seq<byte>, k: nat, f: set<nat>)
    requires k < |name| && WellFormed(name, k) && Laid(p, table, start, pos, name, k, f)
    requires Find(table, start, name, k, 0) == |table|
    ensures Laid(p, Remember(table, name, k, pos), start, pos + 1 + DotFrom(name, k) - k, name, After(name, k), f)
    ensures pos < |p| && pos in f && pos < PTR_LIMIT && LabelAt(p, pos, name, k, f)
  {
    var l := DotFrom(name, k) - k;
    var r := Encode(table, start, pos, name, k);
    var r' := Encode(Remember(table, name, k, pos), start, pos + 1 + l, name, After(name, k));
    EncodedLabel(table, start, pos, name, k, l, r, r');
    LaidLabel(p, pos, name, k, l, r.bytes, r'.bytes, f);
    RememberKeeps(p, table, start, name, k, pos, f);
  }

  /** The bytes of a label and of the rest, `b` in all, stand at `pos`. */
  lemma LaidLabel(p: seq<byte>, pos: nat, name: seq<byte>, k: nat, l: nat, b: seq<byte>, rest: seq<byte>, f: set<nat>)
    requires k < |name| && WellFormed(name, k) && l == DotFrom(name, k) - k && 0 < l <= LABEL_MAXSTR
    requires b == [l as byte] + Piece(name, k, l) + rest && |b| == 1 + l + |rest| && Written(p, pos, b)
    requires forall i :: pos <= i < pos + |b| ==> i in f
    ensures Written(p, pos + 1 + l, rest) && (forall i :: pos + 1 + l <= i < pos + 1 + l + |rest| ==> i in f)
    ensures pos < |p| && pos in f && LabelAt(p, pos, name, k, f)
  {
    WrittenLabel(p, pos, l as byte, Piece(name, k, l), rest);
    WrittenSame(p, pos + 1, name, k, l);
  }

  lemma EncodedLabel(table: seq<Suffix>, start: nat, pos: nat, name: seq<byte>, k: nat, l: nat, r: Encoded, r': Encoded)
    requires k < |name| && WellFormed(name, k) && Find(table, start, name, k, 0) == |table|
    requires l == DotFrom(name, k) - k && r == Encode(table, start, pos, name, k) && r.Encoded?
    requires r' == Encode(Remember(table, name, k, pos), start, pos + 1 + l, name, After(name, k))
    ensures 0 < l <= LABEL_MAXSTR && r'.Encoded? && r.bytes == [l as byte] + Piece(name, k, l) + r'.bytes
    ensures |r.bytes| == 1 + l + |r'.bytes|
  {
  }

  lemma SpelledWhole(p: seq<byte>, table: seq<Suffix>, start: nat, pos: nat, name: seq<byte>, k: nat, f: set<nat>)
    requires k < |name| && Find(table, start, name, k, 0) == |table|
    requires pos < |p| && pos in f && HDR_LEN <= pos < PTR_LIMIT && LabelAt(p, pos, name, k, f)
    requires Spelled(p, Remember(table, name, k, pos), start, pos + 1 + DotFrom(name, k) - k, name, After(name, k), f)
    ensures Spelled(p, table, start, pos, name, k, f)
  {
    var r := Encode(table, start, pos, name, k);
    assert NameAt(p, pos, name, k, f);
    forall i | |table| <= i < |r.table|
      ensures SuffixOk(p, Known(r.table, i), f)
    {
      if i < |Remember(table, name, k, pos)| { EncodeRecords(table, start, pos, name, k); }
    }
  }

  /** A label written out is recorded first, if there is room. */
  lemma EncodeRecords(table: seq<Suffix>, start: nat, pos: nat, name: seq<byte>, k: nat)
    requires k < |name| && Find(table, start, name, k, 0) == |table| && |table| < MAX_SUFFIX && pos < PTR_LIMIT
    requires DotFrom(name, k) - k <= LABEL_MAXSTR
    ensures var r := Encode(table, start, pos, name, k);
            |table| < |r.table| && Known(r.table, |table|) == Suffix(name, k, pos)
  {
    var table', next := Remember(table, name, k, pos), pos + 1 + DotFrom(name, k) - k;
    RememberLast(table, name, k, pos);
    EncodeKeeps(table', start, next, name, After(name, k), |table|);
    assert Encode(table, start, pos, name, k).table == Encode(table', start, next, name, After(name, k)).table;
  }

  lemma RememberLast(table: seq<Suffix>, name: seq<byte>, k: nat, pos: nat)
    requires |table| < MAX_SUFFIX && pos < PTR_LIMIT
    ensures var t := Remember(table, name, k, pos);
            |t| == |table| + 1 && Known(t, |table|) == Suffix(name, k, pos)
  {
  }

  lemma WrittenSame(p: seq<byte>, at: nat, name: seq<byte>, k: nat, l: nat)
    requires k + l <= |name| && Written(p, at, Piece(name, k, l))
    ensures SameLabel(p, at, name, k, l)
  {
    var b := Piece(name, k, l);
    forall i | k <= i < k + l
      ensures LowerByte(p[at + i - k]) == LowerByte(name[i])
    {
      assert p[at + (i - k)] == b[i - k];
    }
  }

  lemma RememberKeeps(p: seq<byte>, table: seq<Suffix>, start: nat, name: seq<byte>, k: nat, pos: nat, f: set<nat>)
    requires forall i :: 0 <= i < |table| && Known(table, i).offset < start ==> SuffixOk(p, Known(table, i), f)
    requires start <= pos < PTR_LIMIT
    ensures var t := Remember(table, name, k, pos);
            forall i :: 0 <= i < |t| && Known(t, i).offset < start ==> SuffixOk(p, Known(t, i), f)
  {
    var t := Remember(table, name, k, pos);
    forall i | 0 <= i < |t| && Known(t, i).offset < start
      ensures SuffixOk(p, Known(t, i), f)
    {
      assert i < |table| && Known(t, i) == Known(table, i);
    }
  }
}
