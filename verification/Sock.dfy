/** The socket's output: partial writes by the kernel, a send buffer, and vectors. */
module Sock {
  import opened Bytes
  import opened RwBuf

  const SOCK_OK := 0
  const SOCK_DATA := 1
  const SOCK_ERROR := -1
  const SOCK_AGAIN := -2
  const SOCK_CLOSED := -3
  const SOCK_TIMEOUT := -4

  /** What the kernel does with a write: takes some of it, or gives an error. */
  datatype Answer = Took(n: nat) | Again | Interrupted | Failed

  /** The other end: the kernel's answers, in order, and what it has taken. */
  class Kernel {
    const answers: nat -> Answer
    var calls: nat
    var taken: seq<byte>

    constructor (answers: nat -> Answer)
      ensures this.answers == answers && taken == []
    {
      this.answers, calls, taken := answers, 0, [];
    }

    /** `write` and `writev`. */
    method Write(data: seq<byte>) returns (a: Answer)
      modifies this
      ensures calls == old(calls) + 1
      ensures a == if answers(old(calls)).Took? && answers(old(calls)).n > |data| then Took(|data|)
                   else answers(old(calls))
      ensures a.Took? ==> a.n <= |data| && taken == old(taken) + data[..a.n]
      ensures !a.Took? ==> taken == old(taken)
    {
      a := answers(calls);
      calls := calls + 1;
      if a.Took? {
        a := Took(if a.n <= |data| then a.n else |data|);
        taken := taken + data[..a.n];
      }
    }
  }

  class Sock {
    const fd: Kernel
    const sendTimeout: bool
    const sendBuf: RwBuf
    var sysErr: bool
    var finSent: bool

    ghost predicate Valid()
      reads this, sendBuf
    {
      sendBuf.Valid()
    }

    constructor (fd: Kernel, sendBuf: RwBuf, sendTimeout: bool)
      requires sendBuf.Valid()
      ensures Valid() && this.fd == fd && this.sendBuf == sendBuf && !sysErr && !finSent
    {
      this.fd, this.sendBuf, this.sendTimeout, sysErr, finSent := fd, sendBuf, sendTimeout, false, false;
    }

    /** The code for an answer that stops a write. */
    function Code(a: Answer): int {
      match a
      case Took(_) => SOCK_OK
      case Again => if sendTimeout then SOCK_TIMEOUT else SOCK_AGAIN
      case Interrupted => SOCK_ERROR
      case Failed => SOCK_ERROR
    }

    /** The kernel has taken `at` of `len` bytes and then stopped; this is how the caller is told. */
    ghost predicate Stopped(at: nat, len: nat, rc: int)
      reads this, fd
    {
      if at < len then
        && fd.calls > 0 && var last := fd.answers(fd.calls - 1);
        && (last.Took? ==> last.n == 0) && rc == (if at > 0 then at else Code(last)) && sysErr == last.Failed?
      else
        rc == at && !sysErr
    }

    /** The code for a write that failed; the flag if it was neither full nor interrupted. */
    method WriteError(a: Answer) returns (ec: int)
      requires !a.Took?
      modifies this`sysErr
      ensures ec == Code(a) && sysErr == (old(sysErr) || a.Failed?)
    {
      ec := SOCK_ERROR;
      if a.Again? {
        ec := if sendTimeout then SOCK_TIMEOUT else SOCK_AGAIN;
      } else if !a.Interrupted? {
        sysErr := true;
      }
    }

    /** `sock_write_data`: the number of bytes the kernel took, or if none, why. */
    method WriteData(data: seq<byte>) returns (rc: int)
      modifies this`sysErr, fd
      ensures rc <= |data| && fd.taken == old(fd.taken) + data[..if rc > 0 then rc else 0]
      ensures if old(sysErr) then rc == SOCK_ERROR && sysErr
              else if finSent then rc == SOCK_CLOSED && !sysErr
              else Stopped(if rc > 0 then rc else 0, |data|, rc)
    {
      if sysErr { return SOCK_ERROR; }
      if finSent { return SOCK_CLOSED; }
      var ec, at := SOCK_OK, 0;
      while at < |data|
        invariant at <= |data| && fd.taken == old(fd.taken) + data[..at] && !sysErr
      {
        var a := fd.Write(data[at..]);
        if !a.Took? {
          ec := WriteError(a);
          break;
        }
        if a.n == 0 { break; }
        assert data[..at] + data[at..][..a.n] == data[..at + a.n];
        at := at + a.n;
      }
      return if at > 0 then at else ec;
    }

    /** `sock_write_mem`: appended whole, or not at all and the socket is in error. */
    method WriteMem(mem: seq<byte>, alloc: bool) returns (ok: bool)
      requires Valid()
      modifies this`sysErr, sendBuf, sendBuf.data
      ensures Valid() && (sendBuf.data == old(sendBuf.data) || fresh(sendBuf.data))
      ensures sendBuf.Contents() == if ok then old(sendBuf.Contents()) + mem else old(sendBuf.Contents())
      ensures sysErr == (old(sysErr) || !ok) && ok == old(sendBuf.Fits(|mem|, alloc))
    {
      ok := sendBuf.Write(mem, alloc);
      if !ok { sysErr := true; }
    }

    /** `sock_write_line`. */
    method WriteLine(line: seq<byte>, alloc: bool) returns (ok: bool)
      requires Valid()
      modifies this`sysErr, sendBuf, sendBuf.data
      ensures Valid() && (sendBuf.data == old(sendBuf.data) || fresh(sendBuf.data))
      ensures sendBuf.Contents() == if ok then old(sendBuf.Contents()) + line + [CR, LF] else old(sendBuf.Contents())
      ensures sysErr == (old(sysErr) || !ok) && ok == old(sendBuf.Fits(|line| + 2, alloc))
    {
      var iovs := [line, [CR, LF]];
      assert Concat(iovs, 0) == line + [CR, LF] by { assert Concat(iovs, 1) == [CR, LF] + Concat(iovs, 2); }
      ok := sendBuf.Writev(iovs, alloc);
      if !ok { sysErr := true; }
    }

    /** `sock_send`: what the kernel takes leaves the buffer. */
    method Send() returns (rc: int)
      requires Valid()
      modifies this`sysErr, fd, sendBuf`ridx, sendBuf`widx
      ensures Valid() && fd.taken + sendBuf.Contents() == old(fd.taken + sendBuf.Contents())
      ensures fd.taken != old(fd.taken) ==> rc == SOCK_DATA
      ensures fd.taken == old(fd.taken) ==>
                if old(sysErr) then rc == SOCK_ERROR && sysErr
                else if finSent then rc == SOCK_CLOSED && !sysErr
                else Stopped(0, |old(sendBuf.Contents())|, rc)
    {
      var data := sendBuf.data[sendBuf.ridx..sendBuf.widx];
      var n := WriteData(data);
      if n <= 0 { return n; }
      sendBuf.ridx := sendBuf.ridx + n;
      if sendBuf.ridx == sendBuf.widx { sendBuf.ridx, sendBuf.widx := 0, 0; }
      assert data == data[..n] + data[n..];
      return SOCK_DATA;
    }

    /** One `writev`, and the vectors brought up to date. */
    method WritevOnce(iovs: array<seq<byte>>, iov: nat) returns (a: Answer, at: nat)
      requires iov <= iovs.Length && Empty(iovs[..], iov)
      modifies fd, iovs
      ensures iov <= at <= iovs.Length && Empty(iovs[..], at)
      ensures fd.taken + Concat(iovs[..], at) == old(fd.taken + Concat(iovs[..], iov))
      ensures |fd.taken| == old(|fd.taken|) + if a.Took? then a.n else 0
      ensures fd.calls > 0
      ensures !a.Took? || a.n == 0 ==> a == fd.answers(fd.calls - 1) || old(|Concat(iovs[..], iov)|) == 0
    {
      var data := Concat(iovs[..], iov);
      at := iov;
      a := fd.Write(data);
      if a.Took? && a.n > 0 {
        assert data == data[..a.n] + data[a.n..];
        at := Advance(iovs, iov, a.n);
      }
    }

    /** `sock_write_iovs`: the vectors keep exactly what the kernel did not take. */
    method WriteIovs(iovs: array<seq<byte>>) returns (rc: int)
      modifies this`sysErr, fd, iovs
      ensures fd.taken + Concat(iovs[..], 0) == old(fd.taken + Concat(iovs[..], 0))
      ensures |fd.taken| == old(|fd.taken|) + if rc > 0 then rc else 0
      ensures if old(sysErr) then rc == SOCK_ERROR && sysErr
              else if finSent then rc == SOCK_CLOSED && !sysErr
              else Stopped(if rc > 0 then rc else 0, old(|Concat(iovs[..], 0)|), rc)
    {
      if sysErr { return SOCK_ERROR; }
      if finSent { return SOCK_CLOSED; }
      ghost var all := Concat(iovs[..], 0);
      var ec, total: nat, iov: nat := SOCK_OK, 0, 0;
      var left := IovsLen(iovs[..]);
      while left > 0
        invariant iov <= iovs.Length && !sysErr && Empty(iovs[..], iov)
        invariant left == |Concat(iovs[..], iov)| && total + left == |all|
        invariant |fd.taken| == old(|fd.taken|) + total
        invariant fd.taken + Concat(iovs[..], iov) == old(fd.taken) + all
      {
        var a, at := WritevOnce(iovs, iov);
        iov := at;
        if !a.Took? {
          ec := WriteError(a);
          break;
        }
        if a.n == 0 { break; }
        left, total := left - a.n, total + a.n;
      }
      EmptyConcat(iovs[..], iov, 0);
      return if total > 0 then total else ec;
    }
  }

  /** Everything before `at` has been written. */
  ghost predicate Empty(iovs: seq<seq<byte>>, at: nat) {
    at <= |iovs| && forall k :: 0 <= k < at ==> iovs[k] == []
  }

  lemma {:induction false} EmptyConcat(iovs: seq<seq<byte>>, at: nat, i: nat)
    requires Empty(iovs, at) && i <= at
    ensures Concat(iovs, i) == Concat(iovs, at)
    decreases at - i
  {
    if i < at { EmptyConcat(iovs, at, i + 1); }
  }

  lemma {:induction false} ConcatAfter(iovs: seq<seq<byte>>, k: nat, v: seq<byte>, i: nat)
    requires k < i <= |iovs|
    ensures Concat(iovs[k := v], i) == Concat(iovs, i)
    decreases |iovs| - i
  {
    if i < |iovs| { ConcatAfter(iovs, k, v, i + 1); }
  }

  /** The vectors brought up to date after a write of `n` bytes from vector `iov` on. */
  method Advance(iovs: array<seq<byte>>, iov: nat, n: nat) returns (at: nat)
    requires iov <= iovs.Length && n <= |Concat(iovs[..], iov)| && Empty(iovs[..], iov)
    modifies iovs
    ensures iov <= at <= iovs.Length && Empty(iovs[..], at)
    ensures Concat(iovs[..], at) == old(Concat(iovs[..], iov))[n..]
  {
    at := iov;
    var nw: nat := n;
    ghost var all := Concat(iovs[..], iov);
    while at < iovs.Length && nw >= |iovs[at]|
      invariant iov <= at <= iovs.Length && Empty(iovs[..], at) && nw <= n
      invariant nw <= |Concat(iovs[..], at)| && Concat(iovs[..], at)[nw..] == all[n..]
    {
      ghost var was := iovs[..];
      nw := nw - |iovs[at]|;
      iovs[at] := [];
      assert iovs[..] == was[at := []];
      ConcatAfter(was, at, [], at + 1);
      at := at + 1;
    }
    if at < iovs.Length && nw > 0 {
      ghost var was := iovs[..];
      iovs[at] := iovs[at][nw..];
      assert iovs[..] == was[at := was[at][nw..]];
      ConcatAfter(was, at, was[at][nw..], at + 1);
      assert (was[at] + Concat(was, at + 1))[nw..] == was[at][nw..] + Concat(was, at + 1);
    }
  }

  // ---- runs ----

  datatype Op = Mem(mem: seq<byte>, alloc: bool) | Line(line: seq<byte>, alloc: bool) | Flush

  function Payload(op: Op): seq<byte> {
    match op
    case Mem(mem, _) => mem
    case Line(line, _) => line + [CR, LF]
    case Flush => []
  }

  /** Everything that was appended with success, in order. */
  function Appended(ops: seq<Op>, oks: seq<bool>, i: nat): seq<byte>
    requires i <= |ops| && i <= |oks|
  {
    if i == 0 then []
    else Appended(ops, oks, i - 1) + if oks[i - 1] then Payload(ops[i - 1]) else []
  }

  lemma {:induction false} AppendedSame(ops: seq<Op>, oks: seq<bool>, more: bool, i: nat)
    requires i <= |ops| && i <= |oks|
    ensures Appended(ops, oks + [more], i) == Appended(ops, oks, i)
  {
    if i > 0 { AppendedSame(ops, oks, more, i - 1); }
  }

  lemma AppendedMore(start: seq<byte>, ops: seq<Op>, oks: seq<bool>, ok: bool)
    requires |oks| < |ops|
    ensures start + Appended(ops, oks + [ok], |oks| + 1)
            == start + Appended(ops, oks, |oks|) + if ok then Payload(ops[|oks|]) else []
  {
    AppendedSame(ops, oks, ok, |oks|);
    assert (oks + [ok])[|oks|] == ok;
  }

  /** What was delivered and what is pending. */
  ghost function Through(s: Sock): seq<byte>
    requires s.Valid()
    reads s, s.fd, s.sendBuf, s.sendBuf.data
  {
    s.fd.taken + s.sendBuf.Contents()
  }

  method Step(s: Sock, op: Op) returns (ok: bool)
    requires s.Valid()
    modifies s`sysErr, s.fd, s.sendBuf, s.sendBuf.data
    ensures s.Valid() && (s.sendBuf.data == old(s.sendBuf.data) || fresh(s.sendBuf.data))
    ensures Through(s) == old(Through(s)) + if ok then Payload(op) else []
  {
    match op
    case Mem(mem, alloc) =>
      ok := s.WriteMem(mem, alloc);
    case Line(line, alloc) =>
      ok := s.WriteLine(line, alloc);
    case Flush =>
      var rc := s.Send();
      ok := rc == SOCK_DATA;
  }

  /** Byte conservation: for any interleaving of appends and sends, and whatever the kernel takes, the bytes
      delivered and then the bytes pending are those that were appended. */
  method Run(s: Sock, ops: seq<Op>) returns (oks: seq<bool>)
    requires s.Valid()
    modifies s`sysErr, s.fd, s.sendBuf, s.sendBuf.data
    ensures s.Valid() && |oks| == |ops|
    ensures Through(s) == old(Through(s)) + Appended(ops, oks, |ops|)
  {
    oks := [];
    ghost var start := Through(s);
    for i := 0 to |ops|
      invariant s.Valid() && |oks| == i && (s.sendBuf.data == old(s.sendBuf.data) || fresh(s.sendBuf.data))
      invariant Through(s) == start + Appended(ops, oks, i)
    {
      var ok := Step(s, ops[i]);
      AppendedMore(start, ops, oks, ok);
      oks := oks + [ok];
    }
  }
}
