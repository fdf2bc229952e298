/** The launcher's start-up protocol: a parent and its children, one go pipe and one ready pipe per child,
    descriptors inherited at fork. A state machine over descriptor tables and program counters. */
module Launcher {

  const PARENT := -1

  /** Where a child is: not forked; forked; its unused ends closed, waiting for go; released, setting up;
      ready sent; descriptors closed, running its command; gone. */
  datatype ChildPc = Unborn | Born | Waiting | Setup | Sent | Running | Exited
  {
    /** It has not read its go byte, and has not gone. */
    predicate Held() { Unborn? || Born? || Waiting? }

    /** It still has descriptors from the fork. */
    predicate Open() { Born? || Waiting? || Setup? || Sent? }
  }

  /** The parent's progress: pipes created, children forked, unused ends closed, go sent, ready received. */
  datatype Parent = Parent(created: nat, forked: nat, posted: nat, sent: nat, waited: nat, failed: bool, gone: bool)

  /** Pipe ends are sets of the processes that hold them; child `k` has number `k`. */
  datatype State = State(
    n: nat,
    inOrder: bool,
    parent: Parent,
    child: seq<ChildPc>,
    goR: seq<set<int>>, goW: seq<set<int>>, rdR: seq<set<int>>, rdW: seq<set<int>>,
    goByte: seq<bool>, rdByte: seq<bool>,   // a byte in the pipe
    gotGo: seq<bool>, ready: seq<bool>)     // history: go consumed, ready written

  datatype Action =
    | Prep | Fork | PostRun | SendGo | WaitReady      // the parent's program
    | ParentFails | ParentDies                        // an error return; the end of the process
    | CloseEnds(k: nat) | ReadGo(k: nat) | SendReady(k: nat) | CloseRange(k: nat)
    | Exit(k: nat)                                    // any failure, kill, or the command's end

  ghost predicate Shape(s: State) {
    && |s.child| == s.n && |s.goR| == s.n && |s.goW| == s.n && |s.rdR| == s.n && |s.rdW| == s.n
    && |s.goByte| == s.n && |s.rdByte| == s.n && |s.gotGo| == s.n && |s.ready| == s.n
  }

  /** Before `lau_start_all`: no pipe, no child. */
  ghost predicate Init(s: State) {
    && Shape(s) && s.parent == Parent(0, 0, 0, 0, 0, false, false)
    && (forall i :: 0 <= i < s.n ==> s.child[i] == Unborn)
    && (forall i :: 0 <= i < s.n ==> Unheld(s.goR[i])) && (forall i :: 0 <= i < s.n ==> Unheld(s.goW[i]))
    && (forall i :: 0 <= i < s.n ==> Unheld(s.rdR[i])) && (forall i :: 0 <= i < s.n ==> Unheld(s.rdW[i]))
    && (forall i :: 0 <= i < s.n ==> !s.goByte[i]) && (forall i :: 0 <= i < s.n ==> !s.rdByte[i])
    && (forall i :: 0 <= i < s.n ==> !s.gotGo[i]) && (forall i :: 0 <= i < s.n ==> !s.ready[i])
  }

  // ---- descriptor tables ----

  ghost function Inherit(h: seq<set<int>>, k: nat): (r: seq<set<int>>)
    ensures |r| == |h|
    ensures forall i, p :: 0 <= i < |h| ==> (p in r[i] <==> p in h[i] || (p == k && PARENT in h[i]))
  {
    seq(|h|, i requires 0 <= i < |h| => if PARENT in h[i] then h[i] + {k} else h[i])
  }

  ghost function Drop(h: seq<set<int>>, p: int): (r: seq<set<int>>)
    ensures |r| == |h|
    ensures forall i, q :: 0 <= i < |h| ==> (q in r[i] <==> q in h[i] && q != p)
  {
    seq(|h|, i requires 0 <= i < |h| => h[i] - {p})
  }

  /** No process is left at this end of the pipe. */
  ghost predicate Unheld(h: set<int>) {
    forall p :: p !in h
  }

  ghost function DropAll(s: State, p: int): State {
    s.(goR := Drop(s.goR, p), goW := Drop(s.goW, p), rdR := Drop(s.rdR, p), rdW := Drop(s.rdW, p))
  }

  ghost function Open(h: seq<set<int>>, i: nat, p: int): seq<set<int>>
    requires i < |h|
  {
    h[i := h[i] + {p}]
  }

  ghost function Close(h: seq<set<int>>, i: nat, p: int): seq<set<int>>
    requires i < |h|
  {
    h[i := h[i] - {p}]
  }

  // ---- the parent's program ----

  predicate Active(p: Parent) {
    !p.failed && !p.gone
  }

  /** Ready to synchronise: every child forked, every unused end closed. */
  predicate Syncing(s: State) {
    Active(s.parent) && s.parent.created == s.n && s.parent.posted == s.n
  }

  /** The parent is in, or about to enter, the read of child `waited`'s ready pipe. */
  predicate AtWait(s: State) {
    && Syncing(s) && s.parent.waited < s.n
    && if s.inOrder then s.parent.sent == s.parent.waited + 1 else s.parent.sent == s.n
  }

  predicate AtGo(s: State) {
    && Syncing(s) && s.parent.sent < s.n
    && (s.inOrder ==> s.parent.sent == s.parent.waited)
  }

  /** May the action happen now? A read is possible when there is a byte, or no writer is left. */
  ghost predicate Enabled(s: State, a: Action)
    requires Shape(s)
  {
    var p := s.parent;
    match a
    case Prep => Active(p) && p.created < s.n
    case Fork => Active(p) && p.created == s.n && p.forked == p.posted < s.n
    case PostRun => Active(p) && p.posted < p.forked <= s.n
    case SendGo => AtGo(s)
    case WaitReady => AtWait(s) && (s.rdByte[p.waited] || Unheld(s.rdW[p.waited]))
    case ParentFails => Active(p)
    case ParentDies => !p.gone
    case CloseEnds(k) => k < s.n && s.child[k] == Born
    case ReadGo(k) => k < s.n && s.child[k] == Waiting && (s.goByte[k] || Unheld(s.goW[k]))
    case SendReady(k) => k < s.n && s.child[k] == Setup
    case CloseRange(k) => k < s.n && s.child[k] == Sent
    case Exit(k) => k < s.n && s.child[k] != Unborn && s.child[k] != Exited
  }

  ghost function Quit(s: State, k: nat): State
    requires Shape(s) && k < s.n
  {
    DropAll(s, k).(child := s.child[k := Exited])
  }

  /** The state after an action. */
  ghost function Do(s: State, a: Action): (r: State)
    requires Shape(s) && Enabled(s, a)
    ensures Shape(r) && r.n == s.n && r.inOrder == s.inOrder
  {
    var p := s.parent;
    match a
    case Prep =>
      var i := p.created;
      s.(parent := p.(created := i + 1),
         goR := Open(s.goR, i, PARENT), goW := Open(s.goW, i, PARENT),
         rdR := Open(s.rdR, i, PARENT), rdW := Open(s.rdW, i, PARENT))
    case Fork =>
      var k := p.forked;
      s.(parent := p.(forked := k + 1), child := s.child[k := Born],
         goR := Inherit(s.goR, k), goW := Inherit(s.goW, k), rdR := Inherit(s.rdR, k), rdW := Inherit(s.rdW, k))
    case PostRun =>
      var i := p.posted;
      s.(parent := p.(posted := i + 1), goR := Close(s.goR, i, PARENT), rdW := Close(s.rdW, i, PARENT))
    case SendGo =>
      var i := p.sent;
      if Unheld(s.goR[i]) then s.(parent := p.(failed := true))
      else s.(parent := p.(sent := i + 1), goByte := s.goByte[i := true], goW := Close(s.goW, i, PARENT))
    case WaitReady =>
      var i := p.waited;
      var closed := s.(rdR := Close(s.rdR, i, PARENT));
      if s.rdByte[i] then closed.(parent := p.(waited := i + 1), rdByte := s.rdByte[i := false])
      else closed.(parent := p.(failed := true))
    case ParentFails => s.(parent := p.(failed := true))
    case ParentDies => DropAll(s, PARENT).(parent := p.(gone := true))
    case CloseEnds(k) =>
      s.(child := s.child[k := Waiting], rdR := Close(s.rdR, k, k), goW := Close(s.goW, k, k))
    case ReadGo(k) =>
      if s.goByte[k] then
        s.(child := s.child[k := Setup], goByte := s.goByte[k := false], gotGo := s.gotGo[k := true],
           goR := Close(s.goR, k, k))
      else Quit(s, k)
    case SendReady(k) =>
      if Unheld(s.rdR[k]) then Quit(s, k)
      else s.(child := s.child[k := Sent], rdByte := s.rdByte[k := true], ready := s.ready[k := true],
              rdW := Close(s.rdW, k, k))
    case CloseRange(k) => DropAll(s, k).(child := s.child[k := Running])
    case Exit(k) => Quit(s, k)
  }

  // ---- invariant ----

  ghost predicate Progress(s: State) {
    var p := s.parent;
    && p.created <= s.n && p.posted <= p.forked <= p.posted + 1 && p.forked <= s.n
    && (p.forked > 0 ==> p.created == s.n) && (p.sent > 0 ==> p.posted == s.n)
    && p.waited <= p.sent <= s.n
    && (s.inOrder ==> p.sent <= p.waited + 1) && (!s.inOrder && p.waited > 0 ==> p.sent == s.n)
  }

  predicate ParentHas(q: Parent, lo: nat, i: int) {
    !q.gone && lo <= i < q.created
  }

  /** Which ends of pipe `i` process `p` holds. A child has what the parent had when it was forked, less what
      it has closed: the child's side of its own and of later pipes, the parent's side of every pipe. */
  ghost predicate Ends(s: State, i: nat, p: int)
    requires Shape(s) && i < s.n
  {
    var q := s.parent;
    if 0 <= p < s.n then
      var c := s.child[p];
      && (p in s.goR[i] <==> c.Open() && p <= i && (p == i ==> c.Held()))
      && (p in s.goW[i] <==> c.Open() && (p == i ==> c.Born?))
      && (p in s.rdW[i] <==> c.Open() && p <= i && (p == i ==> !c.Sent?))
      && (p in s.rdR[i] ==> c.Open() && (p == i ==> c.Born?))
    else
      && (p in s.goR[i] <==> p == PARENT && ParentHas(q, q.posted, i))
      && (p in s.goW[i] <==> p == PARENT && ParentHas(q, q.sent, i))
      && (p in s.rdW[i] <==> p == PARENT && ParentHas(q, q.posted, i))
      && (p in s.rdR[i] ==> p == PARENT && ParentHas(q, q.waited, i))
      && (p == PARENT && Active(q) && q.waited <= i < q.created ==> p in s.rdR[i])
  }

  /** What the bytes and the histories of child `i` say. */
  ghost predicate Bytes(s: State, i: nat)
    requires Shape(s) && i < s.n
  {
    var p, c := s.parent, s.child[i];
    && (c.Unborn? <==> i >= p.forked)
    && (s.goByte[i] || s.gotGo[i] ==> i < p.sent) && !(s.goByte[i] && s.gotGo[i])
    && (i < p.sent && (c.Born? || c.Waiting?) ==> s.goByte[i])
    && (c.Held() ==> !s.gotGo[i]) && (c.Setup? || c.Sent? || c.Running? ==> s.gotGo[i])
    && (c.Held() || c.Setup? ==> !s.ready[i]) && (c.Sent? || c.Running? ==> s.ready[i])
    && (s.ready[i] ==> s.gotGo[i])
    && (i < p.waited ==> s.ready[i]) && (s.rdByte[i] <==> s.ready[i] && p.waited <= i)
  }

  ghost predicate Inv(s: State) {
    && Shape(s) && Progress(s)
    && (forall i: nat, p: int :: i < s.n ==> Ends(s, i, p))
    && (forall i: nat :: i < s.n ==> Bytes(s, i))
  }

  lemma InitInv(s: State)
    requires Init(s)
    ensures Inv(s)
  {
    forall i: nat, p: int | i < s.n ensures Ends(s, i, p) {}
    forall i: nat | i < s.n ensures Bytes(s, i) {}
  }

  lemma StepProgress(s: State, a: Action)
    requires Shape(s) && Progress(s) && Enabled(s, a)
    ensures Progress(Do(s, a))
  {
  }

  predicate Starting(a: Action) { a.Prep? || a.Fork? || a.PostRun? }

  predicate OfParent(a: Action) {
    Starting(a) || a.SendGo? || a.WaitReady? || a.ParentFails? || a.ParentDies?
  }

  predicate Leaving(a: Action) { a.CloseRange? || a.Exit? }

  lemma StartEnds(s: State, a: Action, i: nat, p: int)
    requires Shape(s) && Progress(s) && Enabled(s, a) && i < s.n && Ends(s, i, p) && Ends(s, i, PARENT)
    requires Starting(a) && (0 <= p < s.n ==> Bytes(s, p))
    ensures Ends(Do(s, a), i, p)
  {
    match a
    case Prep => case Fork => case PostRun =>
  }

  lemma SendGoEnds(s: State, a: Action, i: nat, p: int)
    requires Shape(s) && Progress(s) && Enabled(s, a) && i < s.n && Ends(s, i, p) && a.SendGo?
    ensures Ends(Do(s, a), i, p)
  {
  }

  lemma WaitReadyEnds(s: State, a: Action, i: nat, p: int)
    requires Shape(s) && Progress(s) && Enabled(s, a) && i < s.n && Ends(s, i, p) && a.WaitReady?
    ensures Ends(Do(s, a), i, p)
  {
  }

  lemma GivingUpEnds(s: State, a: Action, i: nat, p: int)
    requires Shape(s) && Progress(s) && Enabled(s, a) && i < s.n && Ends(s, i, p) && (a.ParentFails? || a.ParentDies?)
    ensures Ends(Do(s, a), i, p)
  {
  }

  lemma SyncEnds(s: State, a: Action, i: nat, p: int)
    requires Shape(s) && Progress(s) && Enabled(s, a) && i < s.n && Ends(s, i, p)
    requires OfParent(a) && !Starting(a)
    ensures Ends(Do(s, a), i, p)
  {
    match a
    case SendGo => SendGoEnds(s, a, i, p);
    case WaitReady => WaitReadyEnds(s, a, i, p);
    case ParentFails => GivingUpEnds(s, a, i, p);
    case ParentDies => GivingUpEnds(s, a, i, p);
  }

  lemma CloseEndsEnds(s: State, a: Action, i: nat, p: int)
    requires Shape(s) && Enabled(s, a) && i < s.n && Ends(s, i, p) && a.CloseEnds?
    ensures Ends(Do(s, a), i, p)
  {
  }

  lemma ReadGoEnds(s: State, a: Action, i: nat, p: int)
    requires Shape(s) && Enabled(s, a) && i < s.n && Ends(s, i, p) && a.ReadGo?
    ensures Ends(Do(s, a), i, p)
  {
  }

  lemma SendReadyEnds(s: State, a: Action, i: nat, p: int)
    requires Shape(s) && Enabled(s, a) && i < s.n && Ends(s, i, p) && a.SendReady?
    ensures Ends(Do(s, a), i, p)
  {
  }

  lemma ChildEnds(s: State, a: Action, i: nat, p: int)
    requires Shape(s) && Enabled(s, a) && i < s.n && Ends(s, i, p) && !OfParent(a) && !Leaving(a)
    ensures Ends(Do(s, a), i, p)
  {
    match a
    case CloseEnds(_) => CloseEndsEnds(s, a, i, p);
    case ReadGo(_) => ReadGoEnds(s, a, i, p);
    case SendReady(_) => SendReadyEnds(s, a, i, p);
  }

  lemma LeaveEnds(s: State, a: Action, i: nat, p: int)
    requires Shape(s) && Enabled(s, a) && i < s.n && Ends(s, i, p) && Leaving(a)
    ensures Ends(Do(s, a), i, p)
  {
  }

  lemma StepEnds(s: State, a: Action, i: nat, p: int)
    requires Inv(s) && Enabled(s, a) && i < s.n
    ensures Ends(Do(s, a), i, p)
  {
    assert Ends(s, i, p) && Ends(s, i, PARENT);
    if Starting(a) {
      if 0 <= p < s.n { assert Bytes(s, p); }
      StartEnds(s, a, i, p);
    } else if OfParent(a) {
      SyncEnds(s, a, i, p);
    } else if Leaving(a) {
      LeaveEnds(s, a, i, p);
    } else {
      ChildEnds(s, a, i, p);
    }
  }

  lemma StartBytes(s: State, a: Action, i: nat)
    requires Shape(s) && Progress(s) && Enabled(s, a) && i < s.n && Bytes(s, i) && Starting(a)
    ensures Bytes(Do(s, a), i)
  {
  }

  lemma SyncBytes(s: State, a: Action, i: nat)
    requires Shape(s) && Progress(s) && Enabled(s, a) && i < s.n && Bytes(s, i) && OfParent(a) && !Starting(a)
    ensures Bytes(Do(s, a), i)
  {
  }

  lemma ParentBytes(s: State, a: Action, i: nat)
    requires Shape(s) && Progress(s) && Enabled(s, a) && i < s.n && Bytes(s, i) && OfParent(a)
    ensures Bytes(Do(s, a), i)
  {
    if Starting(a) { StartBytes(s, a, i); } else { SyncBytes(s, a, i); }
  }

  lemma ReadGoBytes(s: State, a: Action, i: nat)
    requires Shape(s) && Enabled(s, a) && i < s.n && Bytes(s, i) && a.ReadGo?
    ensures Bytes(Do(s, a), i)
  {
  }

  lemma SendReadyBytes(s: State, a: Action, i: nat)
    requires Shape(s) && Enabled(s, a) && i < s.n && Bytes(s, i) && a.SendReady?
    ensures Bytes(Do(s, a), i)
  {
  }

  lemma ClosingBytes(s: State, a: Action, i: nat)
    requires Shape(s) && Enabled(s, a) && i < s.n && Bytes(s, i) && (a.CloseEnds? || Leaving(a))
    ensures Bytes(Do(s, a), i)
  {
  }

  lemma ChildBytes(s: State, a: Action, i: nat)
    requires Shape(s) && Enabled(s, a) && i < s.n && Bytes(s, i) && !OfParent(a)
    ensures Bytes(Do(s, a), i)
  {
    match a
    case ReadGo(_) => ReadGoBytes(s, a, i);
    case SendReady(_) => SendReadyBytes(s, a, i);
    case _ => ClosingBytes(s, a, i);
  }

  lemma StepInv(s: State, a: Action)
    requires Inv(s) && Enabled(s, a)
    ensures Inv(Do(s, a))
  {
    StepProgress(s, a);
    forall i: nat, p: int | i < s.n ensures Ends(Do(s, a), i, p) {
      StepEnds(s, a, i, p);
    }
    forall i: nat | i < s.n ensures Bytes(Do(s, a), i) {
      assert Bytes(s, i);
      if OfParent(a) { ParentBytes(s, a, i); } else { ChildBytes(s, a, i); }
    }
  }

  // ---- runs ----

  /** A run: any number of steps, in any interleaving. `tr[i]` is the state before step `i`. */
  ghost predicate Steps(tr: seq<State>, acts: seq<Action>) {
    && |tr| == |acts| + 1
    && forall i :: 0 <= i < |acts| ==> Shape(tr[i]) && Enabled(tr[i], acts[i]) && tr[i + 1] == Do(tr[i], acts[i])
  }

  ghost predicate Run(tr: seq<State>, acts: seq<Action>) {
    Steps(tr, acts) && Init(tr[0])
  }

  lemma {:induction false} RunInv(tr: seq<State>, acts: seq<Action>, i: nat)
    requires Run(tr, acts) && i < |tr|
    ensures Inv(tr[i]) && tr[i].n == tr[0].n && tr[i].inOrder == tr[0].inOrder
  {
    if i == 0 {
      InitInv(tr[0]);
    } else {
      RunInv(tr, acts, i - 1);
      StepInv(tr[i - 1], acts[i - 1]);
    }
  }

  /** In order: a child has its go byte only when every earlier child has written its ready byte. */
  lemma GoAfterReady(tr: seq<State>, acts: seq<Action>, i: nat, j: nat, k: nat)
    requires Run(tr, acts) && i < |tr| && tr[0].inOrder && j < k < tr[0].n
    ensures Shape(tr[i]) && tr[i].n == tr[0].n
    ensures tr[i].goByte[k] || tr[i].gotGo[k] ==> tr[i].ready[j]
  {
    RunInv(tr, acts, i);
    assert Bytes(tr[i], j) && Bytes(tr[i], k);
  }

  /** What a step cannot undo: of child `j`, ready, gone, running; of the parent, its progress. */
  ghost predicate Later(s: State, t: State, j: nat)
    requires Shape(s) && Shape(t) && j < s.n == t.n
  {
    && (s.ready[j] ==> t.ready[j])
    && (s.child[j].Exited? ==> t.child[j].Exited? && t.ready[j] == s.ready[j])
    && (s.child[j].Running? ==> t.child[j].Running? || t.child[j].Exited?)
    && s.parent.posted <= t.parent.posted
  }

  lemma StepLater(s: State, a: Action, j: nat)
    requires Shape(s) && Enabled(s, a) && j < s.n && Bytes(s, j)
    ensures Later(s, Do(s, a), j)
  {
  }

  lemma {:induction false} Persists(tr: seq<State>, acts: seq<Action>, i: nat, m: nat, j: nat)
    requires Run(tr, acts) && i <= m < |tr| && j < tr[0].n
    ensures Inv(tr[i]) && Inv(tr[m]) && tr[i].n == tr[m].n == tr[0].n && tr[m].inOrder == tr[0].inOrder
    ensures Later(tr[i], tr[m], j)
  {
    RunInv(tr, acts, i);
    if i < m {
      Persists(tr, acts, i, m - 1, j);
      assert Bytes(tr[m - 1], j);
      StepLater(tr[m - 1], acts[m - 1], j);
      StepInv(tr[m - 1], acts[m - 1]);
    }
  }

  /** In order: if a child goes before it is ready, no later child ever gets go. */
  lemma NoGoAfterFailure(tr: seq<State>, acts: seq<Action>, i: nat, m: nat, j: nat, k: nat)
    requires Run(tr, acts) && tr[0].inOrder && i <= m < |tr| && j < k < tr[0].n
    ensures Shape(tr[i]) && Shape(tr[m]) && tr[i].n == tr[m].n == tr[0].n
    ensures tr[i].child[j].Exited? && !tr[i].ready[j] ==> !tr[m].goByte[k] && !tr[m].gotGo[k]
  {
    Persists(tr, acts, i, m, j);
    GoAfterReady(tr, acts, m, j, k);
  }

  // ---- the parent's wait ----

  /** While the parent waits for a child, the other holders of that child's ready pipe are earlier children that
      have sent ready and have only to close their descriptors. */
  lemma WaitHolders(s: State, p: int)
    requires Inv(s) && AtWait(s) && p in s.rdW[s.parent.waited] && p != s.parent.waited
    ensures 0 <= p < s.parent.waited && s.child[p] == Sent && Enabled(s, CloseRange(p))
  {
    assert Ends(s, s.parent.waited, p);
    if 0 <= p < s.n { assert Bytes(s, p); }
  }

  /** The parent waits for a child that went without its ready byte, and at the later state `m` each earlier
      child has closed its descriptors or gone. */
  ghost predicate Deserted(tr: seq<State>, acts: seq<Action>, i: nat, m: nat) {
    && Run(tr, acts) && i <= m < |tr| && Shape(tr[i]) && Shape(tr[m]) && tr[i].n == tr[m].n == tr[0].n
    && AtWait(tr[i]) && var w := tr[i].parent.waited;
    && tr[i].child[w].Exited? && !tr[i].ready[w]
    && forall j :: 0 <= j < w ==> tr[m].child[j] != Sent
  }

  lemma NoHolder(tr: seq<State>, acts: seq<Action>, i: nat, m: nat, p: int)
    requires Deserted(tr, acts, i, m)
    ensures p !in tr[m].rdW[tr[i].parent.waited]
  {
    var w := tr[i].parent.waited;
    Persists(tr, acts, i, m, w);
    assert Ends(tr[m], w, p);
    if 0 <= p < w {
      Persists(tr, acts, i, m, p);
      assert Bytes(tr[i], p) && Bytes(tr[m], p);
    }
  }

  /** The end of file is not lost: if the child goes without its ready byte, then as soon as each earlier child
      has closed its descriptors, or gone, the parent's read returns, and with end of file. */
  lemma EofArrives(tr: seq<State>, acts: seq<Action>, i: nat, m: nat)
    requires Deserted(tr, acts, i, m)
    ensures Unheld(tr[m].rdW[tr[i].parent.waited]) && !tr[m].rdByte[tr[i].parent.waited]
    ensures AtWait(tr[m]) ==>
              tr[m].parent.waited == tr[i].parent.waited && Enabled(tr[m], WaitReady)
              && Do(tr[m], WaitReady).parent.failed
  {
    var w, s := tr[i].parent.waited, tr[m];
    Persists(tr, acts, i, m, w);
    assert Bytes(s, w);
    forall p: int ensures p !in s.rdW[w] { NoHolder(tr, acts, i, m, p); }
    WaitedStays(tr, acts, i, m);
  }

  lemma StepWaited(s: State, a: Action)
    requires Shape(s) && Enabled(s, a) && s.parent.waited < s.n && Bytes(s, s.parent.waited)
    requires !s.ready[s.parent.waited]
    ensures Do(s, a).parent.waited == s.parent.waited
  {
  }

  lemma {:induction false} WaitedStays(tr: seq<State>, acts: seq<Action>, i: nat, m: nat)
    requires Run(tr, acts) && i <= m < |tr| && Shape(tr[i]) && tr[i].n == tr[0].n && tr[i].parent.waited < tr[i].n
    requires tr[i].child[tr[i].parent.waited].Exited? && !tr[i].ready[tr[i].parent.waited]
    ensures tr[m].parent.waited == tr[i].parent.waited
  {
    var w := tr[i].parent.waited;
    if i < m {
      WaitedStays(tr, acts, i, m - 1);
      Persists(tr, acts, i, m - 1, w);
      assert Bytes(tr[m - 1], w);
      StepWaited(tr[m - 1], acts[m - 1]);
    }
  }

  /** The parent's wait never deadlocks: it can read, or the child it waits for can step, or an earlier child
      can close its descriptors. */
  lemma WaitProgress(s: State)
    requires Inv(s) && AtWait(s)
    ensures var w := s.parent.waited;
            || Enabled(s, WaitReady)
            || Enabled(s, CloseEnds(w)) || Enabled(s, ReadGo(w)) || Enabled(s, SendReady(w))
            || (exists j: nat :: j < w && Enabled(s, CloseRange(j)))
  {
    var w := s.parent.waited;
    assert Bytes(s, w);
    if s.child[w].Exited? && exists p :: p in s.rdW[w] {
      var p :| p in s.rdW[w];
      assert Ends(s, w, p);
      WaitHolders(s, p);
    }
  }

  // ---- every launch ends, and ends well unless something fails ----

  function Left(c: ChildPc): nat {
    match c
    case Unborn => 6 case Born => 5 case Waiting => 4 case Setup => 3 case Sent => 2 case Running => 1 case Exited => 0
  }

  ghost function Total(cs: seq<ChildPc>, k: nat): nat
    requires k <= |cs|
  {
    if k == 0 then 0 else Total(cs, k - 1) + Left(cs[k - 1])
  }

  lemma {:induction false} TotalUpdate(cs: seq<ChildPc>, k: nat, j: nat, c: ChildPc)
    requires k <= |cs| && j < |cs|
    ensures Total(cs[j := c], k) == Total(cs, k) + (if j < k then Left(c) - Left(cs[j]) else 0)
  {
    if k > 0 { TotalUpdate(cs, k - 1, j, c); }
  }

  ghost function Rank(s: State): int
    requires Shape(s)
  {
    var p := s.parent;
    5 * s.n - p.created - p.forked - p.posted - p.sent - p.waited
    + (if p.failed then 0 else 1) + (if p.gone then 0 else 1) + Total(s.child, s.n)
  }

  lemma StepRank(s: State, a: Action)
    requires Inv(s) && Enabled(s, a)
    ensures Rank(Do(s, a)) < Rank(s)
  {
    if a.Fork? {
      assert Bytes(s, s.parent.forked);
      TotalUpdate(s.child, s.n, s.parent.forked, Born);
    } else if OfParent(a) {
      ParentRank(s, a);
    } else {
      ChildRank(s, a);
    }
  }

  lemma ParentRank(s: State, a: Action)
    requires Shape(s) && Enabled(s, a) && OfParent(a) && !a.Fork?
    ensures Rank(Do(s, a)) < Rank(s)
  {
  }

  lemma ChildRank(s: State, a: Action)
    requires Shape(s) && Enabled(s, a) && !OfParent(a)
    ensures Rank(Do(s, a)) < Rank(s)
  {
    var c := Do(s, a).child[a.k];
    TotalUpdate(s.child, s.n, a.k, c);
    assert Do(s, a).child == s.child[a.k := c];
  }

  lemma {:induction false} InitRank(s: State, k: nat)
    requires Init(s) && k <= s.n
    ensures Total(s.child, k) == 6 * k
  {
    if k > 0 { InitRank(s, k - 1); }
  }

  lemma {:induction false} RankFalls(tr: seq<State>, acts: seq<Action>, i: nat)
    requires Run(tr, acts) && i < |tr|
    ensures Shape(tr[i]) && Rank(tr[i]) + i <= 11 * tr[0].n + 2
  {
    if i == 0 {
      InitRank(tr[0], tr[0].n);
    } else {
      RankFalls(tr, acts, i - 1);
      RunInv(tr, acts, i - 1);
      StepRank(tr[i - 1], acts[i - 1]);
    }
  }

  /** No launch goes on for ever. */
  lemma RunBound(tr: seq<State>, acts: seq<Action>)
    requires Run(tr, acts)
    ensures |acts| <= 11 * tr[0].n + 2
  {
    RankFalls(tr, acts, |acts|);
    RunInv(tr, acts, |acts|);
  }

  /** A step of the program itself: not an error return, not an end of a process. */
  predicate Productive(a: Action) {
    !a.ParentFails? && !a.ParentDies? && !a.Exit?
  }

  /** Every ready byte received, and every child running its command, or gone after it was ready. */
  ghost predicate Done(s: State)
    requires Shape(s)
  {
    && s.parent.waited == s.n
    && forall k :: 0 <= k < s.n ==> s.ready[k] && (s.child[k] == Running || s.child[k] == Exited)
  }

  lemma CanWait(s: State) returns (a: Action)
    requires Inv(s) && AtWait(s)
    ensures Productive(a) && Enabled(s, a)
  {
    var w := s.parent.waited;
    WaitProgress(s);
    if Enabled(s, WaitReady) {
      a := WaitReady;
    } else if Enabled(s, CloseEnds(w)) {
      a := CloseEnds(w);
    } else if Enabled(s, ReadGo(w)) {
      a := ReadGo(w);
    } else if Enabled(s, SendReady(w)) {
      a := SendReady(w);
    } else {
      var j: nat :| j < w && Enabled(s, CloseRange(j));
      a := CloseRange(j);
    }
  }

  lemma CanStep(s: State) returns (a: Action)
    requires Inv(s) && Active(s.parent) && !Done(s)
    ensures Productive(a) && Enabled(s, a)
  {
    var p := s.parent;
    if p.created < s.n {
      a := Prep;
    } else if p.posted < s.n {
      a := if p.posted < p.forked then PostRun else Fork;
    } else if p.waited < s.n {
      if AtGo(s) {
        a := SendGo;
      } else {
        a := CanWait(s);
      }
    } else {
      var k :| 0 <= k < s.n && !(s.ready[k] && (s.child[k] == Running || s.child[k] == Exited));
      assert Bytes(s, k);
      a := CloseRange(k);
    }
  }

  /** A launch with no step left, whose parent has met no error, has every ready byte received: whoever died, the
      parent's reads return. Every child runs its command, or is gone after it was ready; in order or in parallel. */
  lemma LaunchCompletes(tr: seq<State>, acts: seq<Action>)
    requires Run(tr, acts)
    requires Shape(tr[|acts|]) && Active(tr[|acts|].parent)
    requires forall a :: Productive(a) ==> !Enabled(tr[|acts|], a)
    ensures Done(tr[|acts|])
  {
    var s := tr[|acts|];
    RunInv(tr, acts, |acts|);
    if !Done(s) { var a := CanStep(s); }
  }

  // ---- when the parent goes first ----

  /** With the parent gone, a waiting child sees end of file exactly when no other child still has the
      descriptors of the fork. */
  lemma OrphanReads(s: State, k: nat)
    requires Inv(s) && s.parent.gone && k < s.n && s.child[k] == Waiting && !s.goByte[k]
    ensures Enabled(s, ReadGo(k)) <==> forall j :: 0 <= j < s.n && j != k ==> !s.child[j].Open()
  {
    forall p: int ensures p in s.goW[k] <==> 0 <= p < s.n && p != k && s.child[p].Open() {
      assert Ends(s, k, p);
    }
  }

  /** So two waiting children keep each other waiting. */
  ghost predicate Stranded(s: State, j: nat, k: nat)
    requires Shape(s)
  {
    s.parent.gone && j < s.n && k < s.n && j != k && s.child[j] == s.child[k] == Waiting && !s.goByte[j] && !s.goByte[k]
  }

  lemma StepStranded(s: State, a: Action, j: nat, k: nat)
    requires Inv(s) && Enabled(s, a) && Stranded(s, j, k) && a != Exit(j) && a != Exit(k)
    ensures Stranded(Do(s, a), j, k)
  {
    OrphanReads(s, j);
    OrphanReads(s, k);
  }

  lemma {:induction false} StrandedForever(tr: seq<State>, acts: seq<Action>, i: nat, m: nat, j: nat, k: nat)
    requires Run(tr, acts) && i <= m < |tr| && Shape(tr[i]) && Stranded(tr[i], j, k)
    requires forall x :: i <= x < m ==> acts[x] != Exit(j) && acts[x] != Exit(k)
    ensures Shape(tr[m]) && Stranded(tr[m], j, k)
  {
    if i < m {
      StrandedForever(tr, acts, i, m - 1, j, k);
      RunInv(tr, acts, m - 1);
      StepStranded(tr[m - 1], acts[m - 1], j, k);
    }
  }

  lemma Extend(tr: seq<State>, acts: seq<Action>, a: Action) returns (tr': seq<State>, acts': seq<Action>)
    requires Run(tr, acts) && Shape(tr[|acts|]) && Enabled(tr[|acts|], a)
    ensures Run(tr', acts') && |acts'| == |acts| + 1 && tr'[0] == tr[0] && tr'[|acts'|] == Do(tr[|acts|], a)
  {
    tr', acts' := tr + [Do(tr[|acts|], a)], acts + [a];
  }

  /** A start in which the children have all been forked and nothing more has happened. */
  ghost predicate Forked(s: State) {
    && Shape(s) && s.parent == Parent(s.n, s.n, s.n, 0, 0, false, false)
    && forall k :: 0 <= k < s.n ==> s.child[k] == Born && !s.goByte[k]
  }

  /** `s0` with `c` pairs of pipes made and the first `f` children forked. */
  ghost predicate Started(s0: State, s: State, c: nat, f: nat) {
    && Shape(s) && s.n == s0.n && c <= s.n && f <= s.n && s.parent == Parent(c, f, f, 0, 0, false, false)
    && s.goByte == s0.goByte && forall k :: 0 <= k < f ==> s.child[k] == Born
  }

  lemma PrepAll(s: State) returns (tr: seq<State>, acts: seq<Action>)
    requires Init(s)
    ensures Run(tr, acts) && tr[0] == s && Started(s, tr[|acts|], s.n, 0)
  {
    tr, acts := [s], [];
    for c := 0 to s.n
      invariant Run(tr, acts) && tr[0] == s && Started(s, tr[|acts|], c, 0)
    {
      tr, acts := Extend(tr, acts, Prep);
    }
  }

  lemma ForkOne(s0: State, s: State, f: nat)
    requires Started(s0, s, s0.n, f) && f < s0.n
    ensures Enabled(s, Fork) && Enabled(Do(s, Fork), PostRun)
    ensures Started(s0, Do(Do(s, Fork), PostRun), s0.n, f + 1)
  {
  }

  lemma ForkAll(s: State) returns (tr: seq<State>, acts: seq<Action>)
    requires Init(s)
    ensures Run(tr, acts) && tr[0] == s && tr[|acts|].n == s.n && Forked(tr[|acts|])
  {
    tr, acts := PrepAll(s);
    for f := 0 to s.n
      invariant Run(tr, acts) && tr[0] == s && Started(s, tr[|acts|], s.n, f)
    {
      ForkOne(s, tr[|acts|], f);
      tr, acts := Extend(tr, acts, Fork);
      tr, acts := Extend(tr, acts, PostRun);
    }
  }

  /** And that does happen, for any number of children: the parent goes after two have started to wait. */
  lemma StrandedReachable(s: State, j: nat, k: nat) returns (tr: seq<State>, acts: seq<Action>)
    requires Init(s) && j < s.n && k < s.n && j != k
    ensures Run(tr, acts) && tr[0] == s && Shape(tr[|acts|]) && Stranded(tr[|acts|], j, k)
  {
    tr, acts := ForkAll(s);
    tr, acts := Extend(tr, acts, CloseEnds(j));
    tr, acts := Extend(tr, acts, CloseEnds(k));
    tr, acts := Extend(tr, acts, ParentDies);
  }
}
