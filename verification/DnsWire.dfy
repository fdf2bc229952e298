/** A packet under construction: names appended one after another share their suffixes, and each can be
    read back from the finished packet. */
module DnsWire {
  import opened Bytes
  import opened DnsName

  /** The bytes written so far and the suffixes recorded for compression. */
  datatype Enc = Enc(p: seq<byte>, table: seq<Suffix>)

  function AddName(e: Enc, name: seq<byte>): (r: Option<Enc>)
    ensures r.Some? ==> |e.p| < |r.value.p| <= |e.p| + |name| + 2
  {
    match Encode(e.table, |e.p|, |e.p|, name, 0)
    case Encoded(b, t) => Some(Enc(e.p + b, t))
    case TooLong(_) => None
  }

  function AddBytes(e: Enc, b: seq<byte>): Enc {
    e.(p := e.p + b)
  }

  /** Names a byte position, so that a set of them can be described. */
  predicate Position(i: nat) {
    true
  }

  /** The byte positions from `a` up to `b`. */
  ghost function Range(a: nat, b: nat): set<nat> {
    set i | a <= i < b && Position(i)
  }

  /** Every recorded suffix is spelled at its offset, by bytes in `f` that are already written. */
  ghost predicate Sound(e: Enc, f: set<nat>) {
    && HDR_LEN <= |e.p| && (forall i :: i in f ==> i < |e.p|)
    && forall i :: 0 <= i < |e.table| ==> SuffixOk(e.p, Known(e.table, i), f)
  }

  /** A well-formed name always encodes. */
  lemma {:induction false} WellFormedEncodes(table: seq<Suffix>, start: nat, pos: nat, name: seq<byte>, k: nat)
    requires k <= |name| && WellFormed(name, k)
    ensures Encode(table, start, pos, name, k).Encoded?
    decreases |name| - k
  {
    if k < |name| && Find(table, start, name, k, 0) == |table| {
      var l := DotFrom(name, k) - k;
      WellFormedEncodes(Remember(table, name, k, pos), start, pos + 1 + l, name, After(name, k));
    }
  }

  /** The recorded suffixes stay good when the packet changes outside the name bytes. */
  lemma SoundFrame(e: Enc, q: seq<byte>, f: set<nat>, g: set<nat>)
    requires Sound(e, f) && Agree(e.p, q, f) && f <= g && |e.p| <= |q| && forall i :: i in g ==> i < |q|
    ensures Sound(Enc(q, e.table), g)
  {
    forall i | 0 <= i < |e.table|
      ensures SuffixOk(q, Known(e.table, i), g)
    {
      var s := Known(e.table, i);
      assert SuffixOk(e.p, s, f);
      NameAtFrame(e.p, q, s.offset, s.name, s.from, f, g);
    }
  }

  /** Appending a well-formed name keeps the packet good and spells the name where it was appended. */
  lemma AddNameOk(e: Enc, f: set<nat>, name: seq<byte>)
    requires Sound(e, f) && WellFormed(name, 0) && AddName(e, name).Some?
    requires |AddName(e, name).value.p| <= PTR_LIMIT
    ensures var e' := AddName(e, name).value;
            var g := f + Range(|e.p|, |e'.p|);
            Sound(e', g) && NameAt(e'.p, |e.p|, name, 0, g) && Span(e'.p, |e.p|, name, 0, g) == |e'.p| - |e.p|
  {
    var e' := AddName(e, name).value;
    var g := f + Range(|e.p|, |e'.p|);
    var b := Encode(e.table, |e.p|, |e.p|, name, 0).bytes;
    SoundFrame(e, e'.p, f, g);
    assert Sound(Enc(e'.p, e.table), g);
    assert Written(e'.p, |e.p|, b);
    EncodeSpells(e'.p, e.table, |e.p|, |e.p|, name, 0, g);
    forall i | 0 <= i < |e'.table|
      ensures SuffixOk(e'.p, Known(e'.table, i), g)
    {
      if i < |e.table| { EncodeKeeps(e.table, |e.p|, |e.p|, name, 0, i); }
    }
  }

  /** A name spelled in the packet decodes to itself, up to case, from every extension of the packet, and
      the decoder stops where the encoder stopped. */
  lemma NameReadsBack(p: seq<byte>, q: seq<byte>, off: nat, name: seq<byte>, f: set<nat>, room: nat)
    requires NameAt(p, off, name, 0, f) && Agree(p, q, f) && |name| < room && Labels(name, 0) <= MAX_JMP + 1
    ensures var r := Decode(q, off, 0, room);
            r.Text? && Reads(r.text, name, 0) && r.adv == Span(p, off, name, 0, f)
  {
    NameAtFrame(p, q, off, name, 0, f, f);
    HopsAtMostLabels(q, off, name, 0, f);
    DecodeReads(q, off, name, 0, f, 0, room);
  }

  // ---- runs of names ----

  /** The state after appending names one after another. */
  function AddNames(e: Enc, names: seq<seq<byte>>): (r: Option<Enc>)
    ensures r.Some? ==> |e.p| <= |r.value.p|
  {
    if names == [] then Some(e)
    else match AddNames(e, names[..|names| - 1])
      case None => None
      case Some(e') => AddName(e', names[|names| - 1])
  }

  lemma {:induction false} AddNamesOk(e: Enc, names: seq<seq<byte>>)
    requires Sound(e, Range(HDR_LEN, |e.p|)) && AddNames(e, names).Some?
    requires forall i :: 0 <= i < |names| ==> WellFormed(names[i], 0)
    requires |AddNames(e, names).value.p| <= PTR_LIMIT
    ensures var e' := AddNames(e, names).value; Sound(e', Range(HDR_LEN, |e'.p|))
  {
    if names != [] {
      var n := |names| - 1;
      AddNamesOk(e, names[..n]);
      var mid := AddNames(e, names[..n]).value;
      var e' := AddName(mid, names[n]).value;
      AddNameOk(mid, Range(HDR_LEN, |mid.p|), names[n]);
      assert Range(HDR_LEN, |e'.p|) == Range(HDR_LEN, |mid.p|) + Range(|mid.p|, |e'.p|);
    }
  }

  /** Later names only extend the packet. */
  lemma {:induction false} AddNamesExtends(e: Enc, names: seq<seq<byte>>, k: nat)
    requires k <= |names| && AddNames(e, names).Some?
    ensures AddNames(e, names[..k]).Some?
    ensures var p, q := AddNames(e, names[..k]).value.p, AddNames(e, names).value.p;
            |p| <= |q| && forall i :: 0 <= i < |p| ==> q[i] == p[i]
  {
    if k == |names| {
      assert names[..k] == names;
    } else {
      var n := |names| - 1;
      assert names[..n][..k] == names[..k];
      AddNamesExtends(e, names[..n], k);
    }
  }

  /** For every run of well-formed names below offset 0x4000, whether or not the suffix table fills up:
      decoding at the place of each name of at most 17 labels gives that name up to case and stops where
      the next one begins. */
  lemma NamesRoundTrip(e: Enc, names: seq<seq<byte>>, k: nat, room: nat)
    requires Sound(e, Range(HDR_LEN, |e.p|)) && AddNames(e, names).Some? && k < |names|
    requires forall i :: 0 <= i < |names| ==> WellFormed(names[i], 0)
    requires |AddNames(e, names).value.p| <= PTR_LIMIT
    requires Labels(names[k], 0) <= MAX_JMP + 1 && |names[k]| < room
    ensures AddNames(e, names[..k]).Some? && AddNames(e, names[..k + 1]).Some?
    ensures var at, next := |AddNames(e, names[..k]).value.p|, |AddNames(e, names[..k + 1]).value.p|;
            var r := Decode(AddNames(e, names).value.p, at, 0, room);
            r.Text? && Reads(r.text, names[k], 0) && at + r.adv == next
  {
    AddNamesExtends(e, names, k);
    AddNamesExtends(e, names, k + 1);
    assert names[..k + 1][..k] == names[..k];
    var mid := AddNames(e, names[..k]).value;
    AddNamesOk(e, names[..k]);
    AddNameOk(mid, Range(HDR_LEN, |mid.p|), names[k]);
    var e' := AddNames(e, names[..k + 1]).value;
    NameReadsBack(e'.p, AddNames(e, names).value.p, |mid.p|, names[k],
                  Range(HDR_LEN, |mid.p|) + Range(|mid.p|, |e'.p|), room);
  }
}
