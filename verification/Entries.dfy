/** A bucket's chain read as a list of keys and values: what the store's comparison finds in it, and when that
    is what was asked for. */
module Entries {
  import opened Bytes
  import opened Chains

  datatype Entry = Entry(key: Key, val: seq<byte>)

  /** What comparing past the end of a record answers: those bytes are not the record's. */
  type Over = (Key, seq<byte>) -> bool

  /** The store compares the key's own length with the record's bytes, key and value together; for a longer key
      it goes on into whatever follows the record. */
  predicate Matches(key: Key, e: Entry, over: Over) {
    var data := e.key + e.val;
    if |key| <= |data| then key == data[..|key|] else key[..|data|] == data && over(key, data)
  }

  /** The first entry from `i` on that matches; `|es|` if none does. */
  function Find(es: seq<Entry>, key: Key, over: Over, i: nat): (r: nat)
    requires i <= |es|
    ensures i <= r <= |es|
    ensures r < |es| ==> Matches(key, es[r], over)
    decreases |es| - i
  {
    if i == |es| || Matches(key, es[i], over) then i else Find(es, key, over, i + 1)
  }

  lemma {:induction false} FindFirst(es: seq<Entry>, key: Key, over: Over, i: nat, r: nat)
    requires i <= r <= |es| && (r < |es| ==> Matches(key, es[r], over))
    requires forall j :: i <= j < r ==> !Matches(key, es[j], over)
    ensures Find(es, key, over, i) == r
    decreases r - i
  {
    if i < r { FindFirst(es, key, over, i + 1, r); }
  }

  /** None of the first `i` entries matches. */
  ghost predicate Unmatched(es: seq<Entry>, i: nat, key: Key, over: Over) {
    i <= |es| && forall j :: 0 <= j < i ==> !Matches(key, es[j], over)
  }

  lemma {:induction false} FindSkips(es: seq<Entry>, key: Key, over: Over, i: nat, j: nat)
    requires i <= |es| && i <= j < Find(es, key, over, i)
    ensures !Matches(key, es[j], over)
    decreases j - i
  {
    if i < j { FindSkips(es, key, over, i + 1, j); }
  }

  // ---- the three operations on a bucket ----

  function PutIn(es: seq<Entry>, key: Key, val: seq<byte>, over: Over): seq<Entry> {
    var f := Find(es, key, over, 0);
    if f < |es| then es[f := Entry(key, val)] else [Entry(key, val)] + es
  }

  function GetIn(es: seq<Entry>, key: Key, over: Over): Option<seq<byte>> {
    var f := Find(es, key, over, 0);
    if f < |es| then Some(es[f].val) else None
  }

  function DelIn(es: seq<Entry>, key: Key, over: Over): seq<Entry> {
    var f := Find(es, key, over, 0);
    if f < |es| then Cut(es, f) else es
  }

  // ---- what they should be ----

  ghost predicate Unique(es: seq<Entry>) {
    forall i, j :: 0 <= i < j < |es| ==> es[i].key != es[j].key
  }

  /** The bucket as a map: the value of the entry that has exactly this key. */
  ghost predicate Has(es: seq<Entry>, key: Key) {
    exists i :: 0 <= i < |es| && es[i].key == key
  }

  ghost function Value(es: seq<Entry>, key: Key): Option<seq<byte>> {
    if Has(es, key) then var i :| 0 <= i < |es| && es[i].key == key; Some(es[i].val) else None
  }

  lemma ValueAt(es: seq<Entry>, i: nat)
    requires Unique(es) && i < |es|
    ensures Value(es, es[i].key) == Some(es[i].val)
  {
  }

  /** No other key's entry that matches comes before the key's own. */
  ghost predicate Clear(es: seq<Entry>, key: Key, over: Over) {
    forall i :: 0 <= i < |es| && es[i].key != key && Matches(key, es[i], over) ==>
      exists j :: 0 <= j < i && es[j].key == key
  }

  /** A record matches only a key that its own key begins with, or that begins with its own key. */
  lemma MatchIsPrefix(key: Key, e: Entry, over: Over)
    requires Matches(key, e, over)
    ensures key <= e.key || e.key <= key
  {
    var data := e.key + e.val;
    assert data[..|e.key|] == e.key;
    if |key| <= |e.key| {
      assert data[..|key|] == e.key[..|key|];
    } else if |key| <= |data| {
      assert data[..|key|][..|e.key|] == data[..|e.key|];
    } else {
      assert key[..|data|][..|e.key|] == key[..|e.key|];
    }
  }

  /** A record whose key begins with the key matches, whatever its value. */
  lemma PrefixMatches(key: Key, e: Entry, over: Over)
    requires key <= e.key
    ensures Matches(key, e, over)
  {
    assert (e.key + e.val)[..|key|] == e.key[..|key|];
  }

  lemma OwnMatches(e: Entry, over: Over)
    ensures Matches(e.key, e, over)
  {
    PrefixMatches(e.key, e, over);
  }

  /** The search is right exactly when the bucket is clear for the key. */
  lemma FindRight(es: seq<Entry>, key: Key, over: Over)
    ensures var f := Find(es, key, over, 0);
            && (f == |es| ==> !Has(es, key))
            && (Clear(es, key, over) <==> f == |es| || es[f].key == key)
  {
    var f := Find(es, key, over, 0);
    forall i | 0 <= i < |es| && es[i].key == key ensures f <= i {
      OwnMatches(es[i], over);
      if i < f { FindSkips(es, key, over, 0, i); }
    }
    forall i | 0 <= i < f ensures !Matches(key, es[i], over) {
      FindSkips(es, key, over, 0, i);
    }
  }

  // ---- get ----

  /** A get answers as the map does if the bucket is clear; otherwise it answers with another key's value. */
  lemma GetIsMap(es: seq<Entry>, key: Key, over: Over)
    requires Unique(es)
    ensures Clear(es, key, over) ==> GetIn(es, key, over) == Value(es, key)
    ensures !Clear(es, key, over) ==>
              exists other :: other != key && Has(es, other) && GetIn(es, key, over) == Value(es, other)
  {
    FindRight(es, key, over);
    var f := Find(es, key, over, 0);
    if f < |es| {
      ValueAt(es, f);
      assert Has(es, es[f].key);
    }
  }

  // ---- set ----

  lemma PutUnique(es: seq<Entry>, key: Key, val: seq<byte>, over: Over)
    requires Unique(es) && Clear(es, key, over)
    ensures Unique(PutIn(es, key, val, over))
  {
    FindRight(es, key, over);
  }

  lemma PutValue(es: seq<Entry>, key: Key, val: seq<byte>, over: Over, k: Key)
    requires Unique(es) && Clear(es, key, over)
    ensures Value(PutIn(es, key, val, over), k) == if k == key then Some(val) else Value(es, k)
  {
    FindRight(es, key, over);
    PutUnique(es, key, val, over);
    var f, r := Find(es, key, over, 0), PutIn(es, key, val, over);
    var at := if f < |es| then f else 0;
    ValueAt(r, at);
    forall i | 0 <= i < |r| && r[i].key == k && k != key ensures Has(es, k) {
      assert es[if f < |es| then i else i - 1].key == k;
    }
    if k != key && Has(es, k) {
      var i :| 0 <= i < |es| && es[i].key == k;
      ValueAt(es, i);
      ValueAt(r, if f < |es| then i else i + 1);
    }
  }

  /** If the bucket is not clear, a set throws another key's value away. */
  lemma PutLoses(es: seq<Entry>, key: Key, val: seq<byte>, over: Over)
    requires Unique(es) && !Clear(es, key, over)
    ensures exists other :: other != key && Has(es, other) && !Has(PutIn(es, key, val, over), other)
  {
    FindRight(es, key, over);
    var f := Find(es, key, over, 0);
    assert Has(es, es[f].key);
  }

  // ---- del ----

  lemma DelUnique(es: seq<Entry>, key: Key, over: Over)
    requires Unique(es)
    ensures Unique(DelIn(es, key, over))
  {
  }

  lemma DelHas(es: seq<Entry>, key: Key, over: Over, k: Key)
    requires Unique(es) && Clear(es, key, over)
    ensures Has(DelIn(es, key, over), k) <==> k != key && Has(es, k)
  {
    FindRight(es, key, over);
    CutHas(es, DelIn(es, key, over), Find(es, key, over, 0), key, k);
  }

  lemma CutHas(es: seq<Entry>, r: seq<Entry>, f: nat, key: Key, k: Key)
    requires Unique(es) && f <= |es|
    requires if f < |es| then es[f].key == key && r == es[..f] + es[f + 1..] else !Has(es, key) && r == es
    ensures Has(r, k) <==> k != key && Has(es, k)
  {
    if f < |es| {
      forall i | 0 <= i < |r| && r[i].key == k ensures Has(es, k) && k != key {
        assert es[if i < f then i else i + 1].key == k;
      }
      forall i | 0 <= i < |es| && es[i].key == k && k != key ensures Has(r, k) {
        assert r[if i < f then i else i - 1].key == k;
      }
    }
  }

  lemma DelValue(es: seq<Entry>, key: Key, over: Over, k: Key)
    requires Unique(es) && Clear(es, key, over)
    ensures Value(DelIn(es, key, over), k) == if k == key then None else Value(es, k)
  {
    DelUnique(es, key, over);
    DelHas(es, key, over, k);
    var f, r := Find(es, key, over, 0), DelIn(es, key, over);
    if k != key && Has(es, k) {
      var i :| 0 <= i < |r| && r[i].key == k;
      ValueAt(r, i);
      ValueAt(es, if i < f then i else i + 1);
    }
  }

  lemma DelLoses(es: seq<Entry>, key: Key, over: Over)
    requires Unique(es) && !Clear(es, key, over)
    ensures exists other :: other != key && Has(es, other) && !Has(DelIn(es, key, over), other)
  {
    FindRight(es, key, over);
    var f := Find(es, key, over, 0);
    assert Has(es, es[f].key);
  }
}
