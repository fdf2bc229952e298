/** Reading a file line by line through a fixed buffer, whatever the sizes of the reads. */
module Lines {
  import opened Bytes
  import opened RwBuf

  // ---- what the lines of a file are ----

  /** The end of the piece at `i`: after the next line feed, or the end of the file. */
  function PieceEnd(data: seq<byte>, i: nat): (e: nat)
    requires i < |data|
    ensures i < e <= |data|
  {
    var j := LineEnd(data, i);
    if j < |data| then j + 1 else j
  }

  /** The file cut after each line feed. */
  function Pieces(data: seq<byte>, i: nat): seq<seq<byte>>
    requires i <= |data|
    decreases |data| - i
  {
    if i == |data| then [] else [data[i..PieceEnd(data, i)]] + Pieces(data, PieceEnd(data, i))
  }

  /** A piece as a line: less its line feed and one carriage return before that; as it is if it has no line feed. */
  function Chomp(piece: seq<byte>): seq<byte> {
    if |piece| > 0 && piece[|piece| - 1] == LF then Trim(piece[..|piece| - 1]) else piece
  }

  function Chomped(pieces: seq<seq<byte>>, i: nat): (r: seq<seq<byte>>)
    requires i <= |pieces|
    ensures |r| == |pieces| - i
    decreases |pieces| - i
  {
    if i == |pieces| then [] else [Chomp(pieces[i])] + Chomped(pieces, i + 1)
  }

  /** The batch split. */
  function Split(data: seq<byte>): seq<seq<byte>> {
    Chomped(Pieces(data, 0), 0)
  }

  predicate Ended(piece: seq<byte>) {
    |piece| > 0 && piece[|piece| - 1] == LF
  }

  predicate IsPiece(piece: seq<byte>) {
    |piece| > 0 && forall x :: 0 <= x < |piece| - 1 ==> piece[x] != LF
  }

  lemma {:induction false} ConcatCons(all: seq<seq<byte>>, p: seq<byte>, ps: seq<seq<byte>>, i: nat, j: nat)
    requires all == [p] + ps && i <= |ps| && j == i + 1
    ensures Concat(all, j) == Concat(ps, i)
    decreases |ps| - i
  {
    if i < |ps| {
      ConcatCons(all, p, ps, i + 1, j + 1);
      assert all[j] == ps[i];
    }
  }

  lemma ConcatFirst(p: seq<byte>, ps: seq<seq<byte>>)
    ensures Concat([p] + ps, 0) == p + Concat(ps, 0)
  {
    ConcatCons([p] + ps, p, ps, 0, 1);
  }

  lemma Rejoined(data: seq<byte>, i: nat, j: nat)
    requires i <= j <= |data|
    ensures data[i..] == data[i..j] + data[j..]
  {
  }

  /** Nothing is lost by the cut. */
  lemma {:induction false} PiecesWhole(data: seq<byte>, i: nat)
    requires i <= |data|
    ensures Concat(Pieces(data, i), 0) == data[i..]
    decreases |data| - i
  {
    if i < |data| {
      var e := PieceEnd(data, i);
      PiecesWhole(data, e);
      ConcatFirst(data[i..e], Pieces(data, e));
      Rejoined(data, i, e);
    }
  }

  /** It is after the line feeds and nowhere else. */
  lemma {:induction false} PiecesCut(data: seq<byte>, i: nat, k: nat)
    requires i <= |data| && k < |Pieces(data, i)|
    ensures IsPiece(Pieces(data, i)[k]) && (k < |Pieces(data, i)| - 1 ==> Ended(Pieces(data, i)[k]))
    decreases |data| - i
  {
    var e := PieceEnd(data, i);
    if k > 0 {
      PiecesCut(data, e, k - 1);
    } else {
      forall x | i <= x < e - 1 ensures data[x] != LF { LineEndFirst(data, i, x); }
    }
  }

  // ---- what a reader with a buffer of `size` bytes gets ----

  datatype Outcome = Line(text: seq<byte>, next: nat) | Eof | TooLong

  /** The line at `i`, if the buffer holds it: with its terminator, or with a byte to spare if it has none. */
  function NextLine(data: seq<byte>, i: nat, size: nat): (o: Outcome)
    requires i <= |data|
    ensures o.Line? ==> i < o.next <= |data|
  {
    var j := LineEnd(data, i);
    if i == |data| then Eof
    else if j < |data| then
      if j + 1 - i <= size then Line(Trim(data[i..j]), j + 1) else TooLong
    else if j - i < size then Line(data[i..], j) else TooLong
  }

  function Within(data: seq<byte>, i: nat, size: nat): seq<seq<byte>>
    requires i <= |data|
    decreases |data| - i
  {
    var o := NextLine(data, i, size);
    if o.Line? then [o.text] + Within(data, o.next, size) else []
  }

  /** Why it stops. */
  function Stop(data: seq<byte>, i: nat, size: nat): (o: Outcome)
    requires i <= |data|
    ensures !o.Line?
    decreases |data| - i
  {
    var o := NextLine(data, i, size);
    if o.Line? then Stop(data, o.next, size) else o
  }

  predicate PieceFits(piece: seq<byte>, size: nat) {
    if Ended(piece) then |piece| <= size else |piece| < size
  }

  /** Every line with its terminator fits the buffer, and a last fragment is shorter than it. */
  predicate Fit(ps: seq<seq<byte>>, size: nat) {
    forall k :: 0 <= k < |ps| ==> PieceFits(ps[k], size)
  }

  lemma FitCons(p: seq<byte>, ps: seq<seq<byte>>, size: nat)
    ensures Fit([p] + ps, size) <==> PieceFits(p, size) && Fit(ps, size)
  {
    var qs := [p] + ps;
    assert qs[0] == p;
    forall k | 0 <= k < |ps| ensures qs[k + 1] == ps[k] {}
  }

  lemma {:induction false} ChompedCons(p: seq<byte>, ps: seq<seq<byte>>, i: nat)
    requires i <= |ps|
    ensures Chomped([p] + ps, i + 1) == Chomped(ps, i)
    decreases |ps| - i
  {
    if i < |ps| {
      ChompedCons(p, ps, i + 1);
      assert ([p] + ps)[i + 1] == ps[i];
    }
  }

  lemma EndedPiece(data: seq<byte>, i: nat, j: nat)
    requires i <= j < |data| && data[j] == LF
    ensures Ended(data[i..j + 1]) && Chomp(data[i..j + 1]) == Trim(data[i..j])
  {
    var p := data[i..j + 1];
    assert p[..|p| - 1] == data[i..j];
  }

  lemma LastPiece(data: seq<byte>, i: nat)
    requires i < |data| && data[|data| - 1] != LF
    ensures !Ended(data[i..|data|]) && data[i..|data|] == data[i..]
  {
    var p := data[i..|data|];
    assert p[|p| - 1] == data[|data| - 1];
  }

  lemma FirstPiece(data: seq<byte>, i: nat, size: nat)
    requires i < |data|
    ensures var o, p := NextLine(data, i, size), data[i..PieceEnd(data, i)];
            && (o.Line? <==> PieceFits(p, size))
            && (o.Line? ==> o.next == PieceEnd(data, i) && o.text == Chomp(p))
  {
    var j := LineEnd(data, i);
    if j < |data| {
      EndedPiece(data, i, j);
    } else {
      LineEndFirst(data, i, j - 1);
      LastPiece(data, i);
    }
  }

  /** If all fits, the reader gets the batch split; if not, it stops before the first line that does not. */
  lemma {:induction false} WithinIsSplit(data: seq<byte>, i: nat, size: nat)
    requires i <= |data|
    ensures Fit(Pieces(data, i), size) <==> Stop(data, i, size) == Eof
    ensures Within(data, i, size) <= Chomped(Pieces(data, i), 0)
    ensures Fit(Pieces(data, i), size) ==> Within(data, i, size) == Chomped(Pieces(data, i), 0)
    decreases |data| - i
  {
    if i < |data| {
      var o, e := NextLine(data, i, size), PieceEnd(data, i);
      var p, ps := data[i..e], Pieces(data, e);
      FirstPiece(data, i, size);
      FitCons(p, ps, size);
      if o.Line? {
        WithinIsSplit(data, e, size);
        ChompedCons(p, ps, 0);
      }
    }
  }

  // ---- the reader ----

  /** The file, and how much each read gives: `cut` is the kernel's choice, negative for an error. */
  class Reader {
    const data: seq<byte>
    const cut: nat -> int
    var pos: nat
    var calls: nat
    var failed: bool

    constructor (data: seq<byte>, cut: nat -> int)
      ensures this.data == data && this.cut == cut && pos == 0 && !failed
    {
      this.data, this.cut, pos, calls, failed := data, cut, 0, 0, false;
    }

    /** `read`: at least a byte, at most what there is room for; none at the end of the file. */
    method Read(space: nat) returns (n: int, chunk: seq<byte>)
      requires pos <= |data| && space > 0
      modifies this
      ensures n < 0 ==> failed && pos == old(pos)
      ensures n >= 0 ==> failed == old(failed) && n == |chunk| <= space && pos == old(pos) + n <= |data|
      ensures n >= 0 ==> chunk == data[old(pos)..pos] && (n == 0 <==> old(pos) == |data|)
    {
      var want := cut(calls);
      calls := calls + 1;
      if want < 0 {
        failed := true;
        return -1, [];
      }
      var most := if |data| - pos < space then |data| - pos else space;
      n := if most == 0 then 0 else 1 + want % most;
      chunk := data[pos..pos + n];
      pos := pos + n;
    }
  }

  /** The buffer holds the file's last bytes read. */
  ghost predicate Window(fd: Reader, buf: RwBuf)
    reads fd, buf, buf.data
  {
    && buf.Valid() && buf.data.Length > 0 && buf.Used() <= fd.pos <= |fd.data|
    && buf.Contents() == fd.data[fd.pos - buf.Used()..fd.pos]
  }

  /** Where the reader is in the file: at the first byte it has not given out. */
  ghost function At(fd: Reader, buf: RwBuf): nat
    requires Window(fd, buf)
    reads fd, buf, buf.data
  {
    fd.pos - buf.Used()
  }

  lemma {:induction false} WindowEnd(data: seq<byte>, i: nat, pos: nat, x: nat)
    requires i + x <= pos <= |data|
    ensures var c := data[i..pos]; var j := LineEnd(c, x);
            if j < |c| then LineEnd(data, i + x) == i + j else LineEnd(data, i + x) >= pos
    decreases pos - i - x
  {
    var c := data[i..pos];
    if i + x < pos && c[x] != LF { WindowEnd(data, i, pos, x + 1); }
  }

  /** What one call of `rwbuf_readline` on the window says about the file. */
  lemma WindowLine(data: seq<byte>, i: nat, pos: nat, size: nat)
    requires i <= pos <= |data| && pos - i <= size
    ensures var c := data[i..pos]; var j := LineEnd(c, 0);
            && (j < |c| ==> NextLine(data, i, size) == Line(Trim(c[..j]), i + j + 1))
            && (j == |c| && pos == |data| && 0 < |c| < size ==> NextLine(data, i, size) == Line(c, pos))
            && (j == |c| && |c| == size > 0 ==> NextLine(data, i, size) == TooLong)
  {
    var c := data[i..pos];
    var j := LineEnd(c, 0);
    WindowEnd(data, i, pos, 0);
    if j < |c| { assert c[..j] == data[i..i + j]; }
  }

  /** More of the file into the buffer. */
  method Fill(fd: Reader, buf: RwBuf) returns (n: int)
    requires Window(fd, buf) && buf.ridx == 0 && buf.Space() > 0
    modifies fd, buf`widx, buf.data
    ensures n < 0 ==> fd.failed
    ensures n >= 0 ==> Window(fd, buf) && At(fd, buf) == old(At(fd, buf)) && fd.pos == old(fd.pos) + n
    ensures n >= 0 ==>
            && fd.failed == old(fd.failed) && (n == 0 <==> old(fd.pos) == |fd.data|)
            && buf.Used() == old(buf.Used()) + n
  {
    var chunk;
    ghost var i, pos := At(fd, buf), fd.pos;
    n, chunk := fd.Read(buf.Space());
    if n < 0 { return; }
    Joined(fd.data, i, pos, fd.pos);
    buf.Append(chunk);
  }

  lemma Joined(data: seq<byte>, i: nat, j: nat, k: nat)
    requires i <= j <= k <= |data|
    ensures data[i..j] + data[j..k] == data[i..k]
  {
  }

  /** A line out of the window from `i` to `pos` is the file's next line, and leaves the window after that line. */
  ghost predicate Given(data: seq<byte>, i: nat, pos: nat, size: nat, eof: bool, rc: int, line: seq<byte>,
                        rest: seq<byte>)
    requires i <= pos <= |data|
  {
    && |rest| <= pos && rc == pos - |rest| - i >= 0 && rest == data[pos - |rest|..pos]
    && (rc > 0 ==> NextLine(data, i, size) == Line(line, pos - |rest|))
    && (rc == 0 ==> if eof then |rest| == 0 else LineEnd(rest, 0) == |rest|)
  }

  lemma WindowRead(data: seq<byte>, i: nat, pos: nat, size: nat, eof: bool, rc: int, line: seq<byte>, rest: seq<byte>)
    requires i <= pos <= |data| && pos - i <= size && (eof ==> pos == |data| && pos - i < size)
    requires size > 0 && LineRead(data[i..pos], size, eof, rc, line, rest)
    ensures Given(data, i, pos, size, eof, rc, line, rest)
  {
    WindowLine(data, i, pos, size);
  }

  method Take(fd: Reader, buf: RwBuf, eof: bool) returns (rc: int, line: seq<byte>)
    requires Window(fd, buf) && (eof ==> fd.pos == |fd.data| && buf.Used() < buf.data.Length)
    modifies buf`ridx, buf`widx, buf.data
    ensures buf.Valid() && (rc == 0 && !eof ==> buf.ridx == 0)
    ensures Given(fd.data, old(At(fd, buf)), fd.pos, buf.data.Length, eof, rc, line, buf.Contents())
  {
    ghost var i := At(fd, buf);
    rc, line := buf.Readline(buf.data.Length, eof, false);
    WindowRead(fd.data, i, fd.pos, buf.data.Length, eof, rc, line, buf.Contents());
  }

  /** A line out of the window, if there is one; at the end of the file, what is left. */
  method TryLine(fd: Reader, buf: RwBuf, eof: bool) returns (rc: int, line: seq<byte>)
    requires Window(fd, buf) && (eof ==> fd.pos == |fd.data| && buf.Used() < buf.data.Length)
    modifies buf`ridx, buf`widx, buf.data
    ensures Window(fd, buf) && rc == At(fd, buf) - old(At(fd, buf)) >= 0
    ensures rc > 0 ==> NextLine(fd.data, old(At(fd, buf)), buf.data.Length) == Line(line, At(fd, buf))
    ensures rc == 0 && eof ==> buf.Used() == 0
    ensures rc == 0 && !eof ==>
            buf.ridx == 0 && buf.Used() == old(buf.Used()) && LineEnd(buf.Contents(), 0) == buf.Used()
  {
    rc, line := Take(fd, buf, eof);
  }

  /** A read into a window without a line in it: an error if there is no room, since the line is then too long. */
  method Refill(fd: Reader, buf: RwBuf) returns (n: int)
    requires Window(fd, buf) && buf.ridx == 0 && LineEnd(buf.Contents(), 0) == buf.Used()
    modifies fd, buf`widx, buf.data
    ensures n < 0 ==> fd.failed || NextLine(fd.data, old(At(fd, buf)), buf.data.Length) == TooLong
    ensures n >= 0 ==> Window(fd, buf) && At(fd, buf) == old(At(fd, buf)) && fd.failed == old(fd.failed)
    ensures n >= 0 ==> fd.pos == old(fd.pos) + n
    ensures n == 0 ==> fd.pos == |fd.data| && buf.Used() < buf.data.Length
  {
    if buf.Space() == 0 {
      WindowLine(fd.data, At(fd, buf), fd.pos, buf.data.Length);
      return -1;
    }
    n := Fill(fd, buf);
  }

  /** `read_line`: the next line of the file, whatever the sizes of the reads. */
  method ReadLine(fd: Reader, buf: RwBuf) returns (rc: int, line: seq<byte>)
    requires Window(fd, buf)
    modifies fd, buf`ridx, buf`widx, buf.data
    ensures rc < 0 ==> rc == -1 && (fd.failed || NextLine(fd.data, old(At(fd, buf)), buf.data.Length) == TooLong)
    ensures rc >= 0 ==> Window(fd, buf) && fd.failed == old(fd.failed) && rc == At(fd, buf) - old(At(fd, buf))
    ensures rc > 0 ==> NextLine(fd.data, old(At(fd, buf)), buf.data.Length) == Line(line, At(fd, buf))
    ensures rc == 0 ==> At(fd, buf) == |fd.data|
  {
    line := [];
    var reading, eof := buf.Used() == 0, false;
    ghost var i := At(fd, buf);
    while true
      invariant Window(fd, buf) && At(fd, buf) == i && !eof && fd.failed == old(fd.failed)
      invariant if reading then buf.ridx == 0 && LineEnd(buf.Contents(), 0) == buf.Used() else buf.Used() > 0
      decreases |fd.data| - fd.pos, !reading
    {
      if reading {
        var n := Refill(fd, buf);
        if n < 0 { return -1, line; }
        eof := n == 0;
      }
      rc, line := TryLine(fd, buf, eof);
      if rc != 0 || buf.Used() == 0 { return; }
      reading := true;
    }
  }

  /** Every line of the file, by repeated `read_line`: for every content and all sizes of reads, the batch split,
      if everything fits the buffer; otherwise the lines before the first that does not, and an error. */
  method ReadAll(fd: Reader, buf: RwBuf) returns (rc: int, lines: seq<seq<byte>>)
    requires Window(fd, buf) && At(fd, buf) == 0 && !fd.failed
    modifies fd, buf`ridx, buf`widx, buf.data
    ensures !fd.failed ==> (rc == 0 <==> Fit(Pieces(fd.data, 0), buf.data.Length))
    ensures rc == 0 ==> !fd.failed && lines == Split(fd.data)
    ensures !fd.failed ==> lines == Within(fd.data, 0, buf.data.Length) <= Split(fd.data)
  {
    lines := [];
    ghost var size := buf.data.Length;
    WithinIsSplit(fd.data, 0, size);
    while true
      invariant Window(fd, buf) && !fd.failed && buf.data.Length == size
      invariant lines + Within(fd.data, At(fd, buf), size) == Within(fd.data, 0, size)
      invariant Stop(fd.data, At(fd, buf), size) == Stop(fd.data, 0, size)
      decreases |fd.data| - At(fd, buf)
    {
      var line;
      rc, line := ReadLine(fd, buf);
      if rc <= 0 { return; }
      lines := lines + [line];
    }
  }
}
