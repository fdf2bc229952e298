/** The byte queue: an array with a read and a write index, shifted down and grown to make space. */
module RwBuf {
  import opened Bytes

  const LF: byte := 10
  const CR: byte := 13

  function Concat(iovs: seq<seq<byte>>, i: nat): seq<byte>
    requires i <= |iovs|
    decreases |iovs| - i
  {
    if i == |iovs| then [] else iovs[i] + Concat(iovs, i + 1)
  }

  /** The size a full buffer grows to: twice its own, or what is needed; in units of 128. */
  function Grown(size: nat, used: nat, need: nat): (r: nat)
    ensures r >= used + need && r >= 2 * size && r % 128 == 0
  {
    var want := if size * 2 < used + need then used + need else size * 2;
    (want + 127) / 128 * 128
  }

  // ---- lines ----

  /** The first line feed at or after `i`; the length if there is none. */
  function LineEnd(s: seq<byte>, i: nat): (j: nat)
    requires i <= |s|
    ensures i <= j <= |s| && (j < |s| ==> s[j] == LF)
    decreases |s| - i
  {
    if i == |s| || s[i] == LF then i else LineEnd(s, i + 1)
  }

  lemma {:induction false} LineEndFirst(s: seq<byte>, i: nat, k: nat)
    requires i <= |s| && i <= k < LineEnd(s, i)
    ensures s[k] != LF
    decreases k - i
  {
    if i < k { LineEndFirst(s, i + 1, k); }
  }

  /** Less one carriage return. */
  function Trim(s: seq<byte>): seq<byte> {
    if |s| > 0 && s[|s| - 1] == CR then s[..|s| - 1] else s
  }

  /** What reading a line from the contents `c` gives, and the contents `rest` it leaves. */
  ghost predicate LineRead(c: seq<byte>, max: nat, eof: bool, rc: int, line: seq<byte>, rest: seq<byte>) {
    var j := LineEnd(c, 0);
    if j < |c| then
      line == Trim(c[..j]) && rest == c[j + 1..] && rc == if max != 0 && |line| > max then -1 else j + 1
    else if max != 0 && |c| > max then rc == -1 && line == [] && rest == c
    else if eof then rc == |c| && line == c && rest == []
    else rc == 0 && line == [] && rest == c
  }

  class RwBuf {
    var data: array<byte>
    var isNull: bool            // never allocated
    var ridx: nat
    var widx: nat
    const maxSize: nat
    const isGrow: bool

    ghost predicate Valid()
      reads this
    {
      ridx <= widx <= data.Length && (ridx == widx ==> ridx == 0) && (isNull ==> data.Length == 0)
    }

    /** The bytes written and not yet read. */
    ghost function Contents(): seq<byte>
      requires Valid()
      reads this, data
    {
      data[ridx..widx]
    }

    constructor Fixed(size: nat)
      ensures Valid() && fresh(data) && data.Length == size && Contents() == [] && !isGrow && !isNull
    {
      data, isNull, ridx, widx, maxSize, isGrow := new byte[size], false, 0, 0, size, false;
    }

    constructor Growing(maxSize: nat)
      ensures Valid() && fresh(data) && data.Length == 0 && Contents() == [] && isGrow && isNull
      ensures this.maxSize == maxSize
    {
      data, isNull, ridx, widx, isGrow := new byte[0], true, 0, 0, true;
      this.maxSize := maxSize;
    }

    function Used(): nat
      requires Valid()
      reads this
    {
      widx - ridx
    }

    function Space(): nat
      requires Valid()
      reads this
    {
      data.Length - widx
    }

    /** The contents moved to the start of the array. */
    method Shift()
      requires Valid()
      modifies this`ridx, this`widx, data
      ensures Valid() && ridx == 0 && Contents() == old(Contents()) && widx == old(widx - ridx)
    {
      if ridx > 0 {
        forall k | 0 <= k < widx - ridx { data[k] := data[ridx + k]; }
        ridx, widx := 0, widx - ridx;
      }
    }

    /** Could there be space for `need` more bytes? `alloc` is the allocator's answer. */
    predicate Fits(need: nat, alloc: bool)
      requires Valid()
      reads this
    {
      if Used() + need <= data.Length then !isNull
      else isGrow && alloc && (maxSize == 0 || Grown(data.Length, Used(), need) <= maxSize)
    }

    /** `rwbuf_mkspace`: the contents stay, wherever they go. */
    method MkSpace(need: nat, alloc: bool) returns (ok: bool)
      requires Valid()
      modifies this, data
      ensures Valid() && Contents() == old(Contents()) && (data == old(data) || fresh(data))
      ensures ok == old(Fits(need, alloc))
      ensures ok ==> Space() >= need
      ensures data.Length == if old(Used() + need <= data.Length) || !ok then old(data.Length)
                             else Grown(old(data.Length), old(Used()), need)
    {
      if Space() >= need { return !isNull; }
      Shift();
      if Space() < need {
        if !isGrow { return false; }
        var size := Grown(data.Length, widx, need);
        if maxSize != 0 && size > maxSize { return false; }
        if !alloc { return false; }
        var bigger := new byte[size](_ => 0);
        forall k | 0 <= k < widx { bigger[k] := data[k]; }
        data, isNull := bigger, false;
      }
      return true;
    }

    /** Bytes copied in at the write index, which stays. */
    method Copy(at: nat, mem: seq<byte>)
      requires Valid() && widx <= at && at + |mem| <= data.Length
      modifies data
      ensures data[..at] == old(data[..at]) && data[at..at + |mem|] == mem && Contents() == old(Contents())
    {
      forall k | 0 <= k < |mem| { data[at + k] := mem[k]; }
    }

    /** The bytes at the write index become part of the contents. */
    method Commit(len: nat)
      requires Valid() && widx + len <= data.Length
      modifies this`widx
      ensures Valid() && widx == old(widx) + len && Contents() == old(Contents()) + data[old(widx)..widx]
    {
      widx := widx + len;
    }

    /** Bytes added to the contents. */
    method Append(mem: seq<byte>)
      requires Valid() && widx + |mem| <= data.Length
      modifies this`widx, data
      ensures Valid() && widx == old(widx) + |mem| && Contents() == old(Contents()) + mem
    {
      Copy(widx, mem);
      Commit(|mem|);
    }

    /** `rwbuf_write`: all of it, or nothing. */
    method Write(mem: seq<byte>, alloc: bool) returns (ok: bool)
      requires Valid()
      modifies this, data
      ensures Valid() && (data == old(data) || fresh(data)) && ok == old(Fits(|mem|, alloc))
      ensures Contents() == if ok then old(Contents()) + mem else old(Contents())
    {
      ok := MkSpace(|mem|, alloc);
      if !ok { return; }
      Append(mem);
    }

    /** The vectors copied in one after the other at the write index, which stays. */
    method Gather(iovs: seq<seq<byte>>)
      requires Valid() && widx + |Concat(iovs, 0)| <= data.Length
      modifies data
      ensures Contents() == old(Contents()) && data[widx..widx + |Concat(iovs, 0)|] == Concat(iovs, 0)
    {
      var at := widx;
      ghost var done: seq<byte>, all := [], Concat(iovs, 0);
      for i := 0 to |iovs|
        invariant done + Concat(iovs, i) == all && at == widx + |done|
        invariant Contents() == old(Contents()) && data[widx..at] == done
      {
        CopyAfter(at, iovs[i], done);
        assert done + (iovs[i] + Concat(iovs, i + 1)) == done + iovs[i] + Concat(iovs, i + 1);
        done := done + iovs[i];
        at := at + |iovs[i]|;
      }
    }

    /** Bytes copied in behind others that wait at the write index. */
    method CopyAfter(at: nat, mem: seq<byte>, ghost done: seq<byte>)
      requires Valid() && widx <= at && at + |mem| <= data.Length && data[widx..at] == done
      modifies data
      ensures Contents() == old(Contents()) && data[widx..at + |mem|] == done + mem
    {
      Copy(at, mem);
      assert data[widx..at] == data[..at][widx..];
      assert data[widx..at + |mem|] == data[widx..at] + data[at..at + |mem|];
    }

    /** `rwbuf_writev`. */
    method Writev(iovs: seq<seq<byte>>, alloc: bool) returns (ok: bool)
      requires Valid()
      modifies this, data
      ensures Valid() && (data == old(data) || fresh(data)) && ok == old(Fits(|Concat(iovs, 0)|, alloc))
      ensures Contents() == if ok then old(Contents()) + Concat(iovs, 0) else old(Contents())
    {
      var len := IovsLen(iovs);
      ok := MkSpace(len, alloc);
      if !ok { return; }
      Gather(iovs);
      Commit(len);
    }

    /** `rwbuf_rdinc`: refused past the end of the array only, so the buffer stays sound exactly when no more is
        dropped than it holds. */
    method RdInc(len: nat) returns (ok: bool)
      requires Valid()
      modifies this`ridx, this`widx
      ensures ok <==> old(ridx) + len <= data.Length
      ensures !ok ==> ridx == old(ridx) && widx == old(widx)
      ensures ok ==> (Valid() <==> len <= old(Used()))
      ensures ok && len <= old(Used()) ==> Contents() == old(Contents())[len..]
    {
      if ridx + len > data.Length { return false; }
      ridx := ridx + len;
      if ridx == widx { ridx, widx := 0, 0; }
      return true;
    }

    /** `memchr` for a line feed. */
    method FindLf() returns (j: nat)
      requires Valid()
      ensures j == LineEnd(Contents(), 0)
    {
      j := 0;
      while j < widx - ridx && data[ridx + j] != LF
        invariant j <= |Contents()| && LineEnd(Contents(), j) == LineEnd(Contents(), 0)
      {
        j := j + 1;
      }
    }

    /** The line that ends at the line feed `j` taken out, and what is left of it when trimmed. */
    method TakeLine(j: nat, addNul: bool) returns (line: seq<byte>)
      requires Valid() && j < Used() && data[ridx + j] == LF
      modifies this`ridx, this`widx, data
      ensures Valid() && line == Trim(old(Contents())[..j]) && Contents() == old(Contents())[j + 1..]
    {
      var start, len := ridx, j;
      assert Contents()[..j] == data[start..start + j];
      ridx := ridx + j + 1;
      if ridx == widx { ridx, widx := 0, 0; }
      if len > 0 && data[start + len - 1] == CR { len := len - 1; }
      line := data[start..start + len];
      if addNul { data[start + len] := 0; }
    }

    /** `rwbuf_readline`. The line's length, terminator included; zero if it is not complete; -1 if it is too long. */
    method Readline(max: nat, eof: bool, addNul: bool) returns (rc: int, line: seq<byte>)
      requires Valid()
      modifies this`ridx, this`widx, data
      ensures Valid()
      ensures LineRead(old(Contents()), max, eof, rc, line, Contents())
      ensures rc == 0 && !eof ==> ridx == 0
    {
      var j := FindLf();
      if j < widx - ridx {
        line := TakeLine(j, addNul);
        if max != 0 && |line| > max { return -1, line; }
        return j + 1, line;
      }
      line := [];
      if max != 0 && widx - ridx > max { return -1, line; }
      if eof {
        line := data[ridx..widx];
        ridx, widx := 0, 0;
        return |line|, line;
      }
      Shift();
      return 0, line;
    }
  }

  method IovsLen(iovs: seq<seq<byte>>) returns (len: nat)
    ensures len == |Concat(iovs, 0)|
  {
    len := 0;
    for i := 0 to |iovs|
      invariant len + |Concat(iovs, i)| == |Concat(iovs, 0)|
    {
      len := len + |iovs[i]|;
    }
  }
}
