/** A packet whose names overflow the decoder's string store: the encoder writes it from well-formed records after any
    header, and the SOA record in it comes back without its second name and without an error. */
module DnsFullStore {
  import opened Bytes
  import opened DnsName
  import opened DnsWire
  import opened DnsRecord
  import opened DnsRoundTrip
  import opened DnsDeepNames

  // ---- room for encoding ----

  /** The most bytes the data of a record can take. */
  function DataRoom(d: RData): nat {
    match d
    case A(a) => |a|
    case Aaaa(a) => |a|
    case Soa(_, _, _, _, _, _, _) => 2 * NAME_MAXLEN + 20
    case Txt(strs) => StrsNeed(strs, 0)
    case Empty => 0
    case _ => NAME_MAXLEN
  }

  function Room(r: Record): nat {
    NAME_MAXLEN + 10 + DataRoom(r.rdata)
  }

  lemma NameFits(e: Enc, name: seq<byte>)
    requires GoodName(name)
    ensures AddName(e, name).Some? && |AddName(e, name).value.p| <= |e.p| + NAME_MAXLEN
  {
    WellFormedEncodes(e.table, |e.p|, |e.p|, name, 0);
  }

  lemma {:induction false} StrsFit(e: Enc, max: nat, strs: seq<seq<byte>>, i: nat)
    requires i <= |strs| && |e.p| + StrsNeed(strs, i) <= max
    ensures AddStrs(e, max, strs, i).Some? && |AddStrs(e, max, strs, i).value.p| == |e.p| + StrsNeed(strs, i)
    decreases |strs| - i
  {
    if i < |strs| { StrsFit(AddBytes(e, Counted(strs[i])), max, strs, i + 1); }
  }

  lemma DataFits(e: Enc, max: nat, d: RData)
    requires GoodData(d) && |e.p| + DataRoom(d) <= max
    ensures AddRData(e, max, d).Some? && |e.p| <= |AddRData(e, max, d).value.p| <= |e.p| + DataRoom(d)
  {
    match d
    case Ns(n) => NameFits(e, n);
    case Cname(n) => NameFits(e, n);
    case Ptr(n) => NameFits(e, n);
    case Soa(m, r, _, _, _, _, _) =>
      NameFits(e, m);
      NameFits(AddName(e, m).value, r);
    case Txt(strs) => StrsFit(e, max, strs, 0);
    case _ =>
  }

  /** A well-formed record is encoded into every packet with room for it. */
  lemma RecordFits(e: Enc, max: nat, r: Record)
    requires GoodRecord(r) && |e.p| + Room(r) <= max
    ensures AddRecord(e, max, r).Some? && |AddRecord(e, max, r).value.p| <= |e.p| + Room(r)
  {
    NameFits(e, r.name);
    DataFits(AddBytes(AddName(e, r.name).value, Fixed(r)), max, r.rdata);
  }

  // ---- a SOA record after a long TXT record ----

  lemma {:induction false} EvenStrs(strs: seq<seq<byte>>, n: nat, i: nat)
    requires i <= |strs| && forall j :: 0 <= j < |strs| ==> |strs[j]| == n
    ensures StrsNeed(strs, i) == (|strs| - i) * (n + 1)
    decreases |strs| - i
  {
    if i < |strs| { EvenStrs(strs, n, i + 1); }
  }

  /** Eight TXT strings of 253 bytes. */
  function Strings(): (strs: seq<seq<byte>>)
    ensures |strs| == 8 && forall i :: 0 <= i < |strs| ==> |strs[i]| == NAME_MAXSTR && 0 !in strs[i]
  {
    seq(8, _ => seq(NAME_MAXSTR, _ => LETTER))
  }

  function Mailbox(): (name: seq<byte>)
    ensures |name| == 10 && forall i :: 0 <= i < |name| ==> name[i] == LETTER
  {
    seq(10, _ => LETTER)
  }

  function TxtRecord(): Record {
    Record([], TYPE_TXT, 1, 0, Txt(Strings()))
  }

  function SoaRecord(): Record {
    Record([], TYPE_SOA, 1, 0, Soa([], Mailbox(), 0, 0, 0, 0, 0))
  }

  /** Both records are well formed, and only the last name does not fit the string store. */
  lemma Overflow(t: Record, s: Record)
    requires t == TxtRecord() && s == SoaRecord()
    ensures GoodRecord(t) && GoodRecord(s)
    ensures Need(t) == 2034 && NameNeed(s.name) + NameNeed(s.rdata.mname) == 4 && Need(s) == 15
    ensures Room(t) + Room(s) == 265 + 2032 + 265 + 530
  {
    TxtNeeds(t, t.rdata.strs);
    LetterName(s.rdata.rname);
  }

  lemma TxtNeeds(t: Record, strs: seq<seq<byte>>)
    requires t == Record([], TYPE_TXT, 1, 0, Txt(strs)) && |strs| == 8
    requires forall i :: 0 <= i < |strs| ==> |strs[i]| == NAME_MAXSTR && 0 !in strs[i]
    ensures GoodRecord(t) && Need(t) == 2034 && Room(t) == 265 + 2032
  {
    EvenStrs(strs, NAME_MAXSTR, 0);
  }

  lemma LetterName(name: seq<byte>)
    requires 0 < |name| <= LABEL_MAXSTR && forall i :: 0 <= i < |name| ==> name[i] == LETTER
    ensures GoodName(name)
  {
    assert DotFrom(name, 0) == |name|;
    assert After(name, 0) == |name|;
    assert WellFormed(name, |name|) && Labels(name, |name|) == 0;
  }

  lemma TwoFit(e: Enc, max: nat, t: Record, s: Record)
    requires GoodRecord(t) && GoodRecord(s) && |e.p| + Room(t) + Room(s) <= max
    ensures AddRecords(e, max, [t]).Some? && AddRecords(e, max, [t, s]).Some?
    ensures AddRecord(e, max, t) == AddRecords(e, max, [t])
    ensures AddRecord(AddRecords(e, max, [t]).value, max, s) == AddRecords(e, max, [t, s])
    ensures |AddRecords(e, max, [t, s]).value.p| <= max
  {
    assert [t][..0] == [] && [t, s][..1] == [t];
    RecordFits(e, max, t);
    RecordFits(AddRecord(e, max, t).value, max, s);
  }

  /** Two records of which only the second, a SOA record, does not fit the store, and only by its second name. */
  lemma SecondLost(e: Enc, f: set<nat>, max: nat, t: Record, s: Record, used: nat)
    requires Sound(e, f) && GoodRecord(t) && GoodRecord(s) && |e.p| + Room(t) + Room(s) <= max <= PTR_LIMIT
    requires s.rdata.Soa? && used + Need(t) + NameNeed(s.name) + NameNeed(s.rdata.mname) <= NAMES_MAX
    requires used + Need(t) + Need(s) > NAMES_MAX
    ensures var e' := AddRecords(e, max, [t, s]);
            && e'.Some? && |e'.value.p| <= max
            && var r := ReadRecords(e'.value.p, |e.p|, used, 2);
               r.Ok? && RecordBack(r.value.0[0], t) && SoaLost(r.value.0[1].rdata, s.rdata)
  {
    TwoFit(e, max, t, s);
    var e1, e2 := AddRecord(e, max, t).value, AddRecords(e, max, [t, s]).value;
    var used1 := used + Need(t);
    TwoOutcomes(e, e1, e2, f, max, t, s, used, used1);
    BothRead(e2.p, |e.p|, used, t, s, |e1.p|, |e2.p|, used1);
  }

  lemma BothRead(q: seq<byte>, off: nat, used: nat, t: Record, s: Record, mid: nat, end: nat, used1: nat)
    requires |q| < 0xFFF0 && RecordRead(ReadRecord(q, off, used), t, mid, used1)
    requires RecordOutcome(ReadRecord(q, mid, used1), s, end, used1)
    requires s.rdata.Soa? && used1 + NameNeed(s.name) + NameNeed(s.rdata.mname) <= NAMES_MAX < used1 + Need(s)
    ensures var r := ReadRecords(q, off, used, 2);
            r.Ok? && RecordBack(r.value.0[0], t) && SoaLost(r.value.0[1].rdata, s.rdata)
  {
    var p1, p2 := ReadRecord(q, off, used).value, ReadRecord(q, mid, used1).value;
    TwoReads(q, off, used, p1, p2);
  }

  lemma TwoOutcomes(e: Enc, e1: Enc, e2: Enc, f: set<nat>, max: nat, t: Record, s: Record, used: nat, used1: nat)
    requires Sound(e, f) && GoodRecord(t) && GoodRecord(s) && used1 == used + Need(t) <= NAMES_MAX
    requires AddRecord(e, max, t) == Some(e1) && AddRecord(e1, max, s) == Some(e2) && |e2.p| <= PTR_LIMIT
    ensures RecordRead(ReadRecord(e2.p, |e.p|, used), t, |e1.p|, used1)
    ensures RecordOutcome(ReadRecord(e2.p, |e1.p|, used1), s, |e2.p|, used1)
  {
    RecordGrows(e1, max, s);
    var g := RecordSound(e, f, max, t);
    var _ := RecordSound(e1, g, max, s);
    RecordRoundTrip(e, f, max, t, e2.p, used);
    RecordRoundTrip(e1, g, max, s, e2.p, used1);
  }

  lemma TwoReads(q: seq<byte>, off: nat, used: nat, p1: Parsed, p2: Parsed)
    requires |q| < 0xFFF0 && ReadRecord(q, off, used) == Ok(p1) && ReadRecord(q, p1.next, p1.used) == Ok(p2)
    ensures ReadRecords(q, off, used, 2) == Ok(([p1.record, p2.record], p2.next, p2.used))
  {
    ReadMore(q, off, used, 0, ([], off, used), p1);
    assert [] + [p1.record] == [p1.record];
    assert [p1.record] + [p2.record] == [p1.record, p2.record];
    ReadMore(q, off, used, 1, ([p1.record], p1.next, p1.used), p2);
  }

  lemma ReadMore(q: seq<byte>, off: nat, used: nat, n: nat, pre: (seq<Record>, nat, nat), p: Parsed)
    requires |q| < 0xFFF0 && ReadRecords(q, off, used, n) == Ok(pre) && ReadRecord(q, pre.1, pre.2) == Ok(p)
    ensures ReadRecords(q, off, used, n + 1) == Ok((pre.0 + [p.record], p.next, p.used))
  {
  }

  /** The packet: a TXT record and a SOA record after a header, such as one that counts an answer and an authority
      record. Both are written; both are read without an error; the SOA record's second name comes back empty. */
  lemma NameLost(header: seq<byte>, t: Record, s: Record)
    requires |header| == HDR_LEN && t == TxtRecord() && s == SoaRecord()
    ensures GoodRecord(t) && GoodRecord(s)
    ensures var e := AddRecords(Enc(header, []), 4096, [t, s]);
            && e.Some? && |e.value.p| <= 4096
            && var r := ReadRecords(e.value.p, HDR_LEN, 0, 2);
               r.Ok? && r.value.0[1].rdata.Soa? && r.value.0[1].rdata.rname == [] && s.rdata.rname == Mailbox()
  {
    Overflow(t, s);
    SecondLost(Enc(header, []), {}, 4096, t, s, 0);
  }
}
