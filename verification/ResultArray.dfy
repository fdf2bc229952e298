/** The resolver's result array: IPv6 addresses from the front, IPv4 addresses from the back, and the pass that
    brings the IPv4 addresses forward in place. */
module ResultArray {
  import opened Bytes

  datatype Family = Ip4 | Ip6 | Other

  datatype Addr = Addr(family: Family, sock: int, port: nat, ip: seq<byte>)

  /** The four bytes where an IPv4 address would be: in an IPv6 one, its flow label, which is zero. */
  function V4Bytes(a: Addr): seq<byte> {
    if a.family.Ip4? then a.ip else [0, 0, 0, 0]
  }

  /** ::ffff:a.b.c.d */
  function Mapped(a: Addr): Addr {
    Addr(Ip6, a.sock, a.port, [0, 0, 0, 0, 0, 0, 0, 0, 0, 0, 0xff, 0xff] + V4Bytes(a))
  }

  function Moved(a: Addr, map6: bool): Addr {
    if map6 then Mapped(a) else a
  }

  function MovedAll(s: seq<Addr>, map6: bool): (r: seq<Addr>)
    ensures |r| == |s| && forall i :: 0 <= i < |s| ==> r[i] == Moved(s[i], map6)
  {
    seq(|s|, i requires 0 <= i < |s| => Moved(s[i], map6))
  }

  /** Entry `i` of the IPv4 block after the pass over the array `a`, in place: if the slot it is taken from has
      been overwritten by then, what was written there. */
  function Landed(a: seq<Addr>, six: nat, map6: bool, i: nat): Addr
    requires six + i < |a|
  {
    var j := |a| - 1 - six - i;
    if j < i then Moved(Landed(a, six, map6, j), map6) else Moved(a[|a| - 1 - i], map6)
  }

  /** No source slot is overwritten before it is read. */
  predicate Roomy(max: nat, six: nat, four: nat) {
    six + 2 * four <= max + 1
  }

  lemma RoomyLands(a: seq<Addr>, six: nat, four: nat, map6: bool, i: nat)
    requires six + four <= |a| && Roomy(|a|, six, four) && i < four
    ensures Landed(a, six, map6, i) == Moved(a[|a| - 1 - i], map6)
  {
  }

  /** The pass does what is asked of it: every entry lands as it was. */
  ghost predicate Lands(a: seq<Addr>, six: nat, four: nat, map6: bool)
    requires six + four <= |a|
  {
    forall i: nat :: i < four ==> Landed(a, six, map6, i) == Moved(a[|a| - 1 - i], map6)
  }

  /** An array as the resolver fills it. */
  ghost predicate Filled(a: seq<Addr>, six: nat, four: nat) {
    && six + four <= |a|
    && (forall k :: 0 <= k < six ==> a[k].family.Ip6? && |a[k].ip| == 16)
    && (forall k :: |a| - four <= k < |a| ==> a[k].family.Ip4? && |a[k].ip| == 4)
  }

  /** Addresses that show the difference: all alike but the last to be moved. */
  function Witness(max: nat, six: nat, four: nat): (a: seq<Addr>)
    requires six + four <= max && four > 0
    ensures |a| == max && Filled(a, six, four)
  {
    seq(max, k requires 0 <= k < max =>
      if k < max - four then Addr(Ip6, 0, 0, seq(16, _ => 1))
      else if k == max - four then Addr(Ip4, 0, 0, [2, 2, 2, 2])
      else Addr(Ip4, 0, 0, [1, 1, 1, 1]))
  }

  lemma NotRoomyClobbers(max: nat, six: nat, four: nat, map6: bool)
    requires six + four <= max && !Roomy(max, six, four)
    ensures four > 0 && !Lands(Witness(max, six, four), six, four, map6)
  {
    var a := Witness(max, six, four);
    var i := four - 1;
    var j := max - 1 - six - i;
    assert Landed(a, six, map6, j) == Moved(a[max - 1 - j], map6);
    assert a[max - 1 - j].ip == [1, 1, 1, 1] && a[max - 1 - i].ip == [2, 2, 2, 2];
    assert Landed(a, six, map6, i) == Moved(Landed(a, six, map6, j), map6);
    if map6 {
      assert Mapped(a[max - 1 - i]).ip[12] == 2 && Mapped(Landed(a, six, map6, j)).ip[12] == 0;
    }
    assert Landed(a, six, map6, i) != Moved(a[max - 1 - i], map6);
  }

  /** The bound is exact: the pass is right for all addresses if and only if it holds. */
  lemma RoomyExactly(max: nat, six: nat, four: nat, map6: bool)
    requires six + four <= max
    ensures Roomy(max, six, four) <==> (forall a :: |a| == max && Filled(a, six, four) ==> Lands(a, six, four, map6))
  {
    if Roomy(max, six, four) {
      forall a: seq<Addr>, i: nat | |a| == max && i < four
        ensures Landed(a, six, map6, i) == Moved(a[max - 1 - i], map6)
      {
        RoomyLands(a, six, four, map6, i);
      }
    } else {
      NotRoomyClobbers(max, six, four, map6);
    }
  }

  /** The array after `i` steps of the pass over `was`. */
  ghost predicate Passed(cur: seq<Addr>, was: seq<Addr>, six: nat, map6: bool, i: nat) {
    && |cur| == |was| && six + i <= |was|
    && (forall k :: six <= k < six + i ==> cur[k] == Landed(was, six, map6, k - six))
    && (forall k :: 0 <= k < |was| && !(six <= k < six + i) ==> cur[k] == was[k])
  }

  lemma PassNext(cur: seq<Addr>, was: seq<Addr>, six: nat, map6: bool, i: nat)
    requires Passed(cur, was, six, map6, i) && six + i < |was|
    ensures Passed(cur[six + i := Moved(cur[|was| - 1 - i], map6)], was, six, map6, i + 1)
  {
    var at := |was| - 1 - i;
    assert Landed(was, six, map6, i) == Moved(cur[at], map6) by {
      if six <= at < six + i { assert cur[at] == Landed(was, six, map6, at - six); }
    }
  }

  /** The loop of `fixup_addrs`. */
  method BringForward(addrs: array<Addr>, six: nat, four: nat, map6: bool)
    requires six + four <= addrs.Length
    modifies addrs
    ensures Passed(addrs[..], old(addrs[..]), six, map6, four)
  {
    for i := 0 to four
      invariant Passed(addrs[..], old(addrs[..]), six, map6, i)
    {
      PassNext(addrs[..], old(addrs[..]), six, map6, i);
      var src := addrs[addrs.Length - 1 - i];
      addrs[six + i] := if map6 then Mapped(src) else src;
    }
  }

  class Result {
    const addrs: array<Addr>
    const mapped: bool      // DNS_V4MAPPED
    const all: bool         // DNS_ALL
    var numAddr: nat
    var numIp4: nat
    var numIp6: nat
    ghost var four: seq<Addr>    // in order of arrival
    ghost var six: seq<Addr>

    ghost predicate Valid()
      reads this, addrs
    {
      && numAddr == numIp4 + numIp6 <= addrs.Length && |four| == numIp4 && |six| == numIp6
      && (forall k :: 0 <= k < numIp6 ==> addrs[k] == six[k])
      && (forall k :: 0 <= k < numIp4 ==> addrs[addrs.Length - 1 - k] == four[k])
    }

    constructor (addrs: array<Addr>, mapped: bool, all: bool)
      ensures Valid() && this.addrs == addrs && this.mapped == mapped && this.all == all && four == six == []
    {
      this.addrs, this.mapped, this.all := addrs, mapped, all;
      numAddr, numIp4, numIp6, four, six := 0, 0, 0, [], [];
    }

    /** `res_add_ip_port`: a full array takes nothing, and answers 0. */
    method AddIpPort(a: Addr) returns (idx: int)
      requires Valid()
      modifies this, addrs
      ensures Valid()
      ensures old(numAddr) >= addrs.Length ==>
              idx == 0 && four == old(four) && six == old(six) && addrs[..] == old(addrs[..])
      ensures old(numAddr) < addrs.Length ==>
                match a.family
                case Ip4 => idx == addrs.Length - 1 - old(numIp4) && four == old(four) + [a] && six == old(six)
                case Ip6 => idx == old(numIp6) && six == old(six) + [a] && four == old(four)
                case Other => idx == -1 && four == old(four) && six == old(six) && addrs[..] == old(addrs[..])
    {
      if numAddr >= addrs.Length { return 0; }
      if a.family.Other? { return -1; }
      idx := if a.family.Ip4? then addrs.Length - numIp4 - 1 else numIp6;
      addrs[idx] := a;
      if a.family.Ip4? {
        numIp4, four := numIp4 + 1, four + [a];
      } else {
        numIp6, six := numIp6 + 1, six + [a];
      }
      numAddr := numAddr + 1;
    }

    /** The IPv4 addresses that stay: all, unless there are IPv6 ones and the flags do not ask for both. */
    ghost function Kept(): seq<Addr>
      reads this
    {
      if |six| > 0 && !(mapped && all) then [] else four
    }

    /** `fixup_addrs`: the IPv6 addresses, then the IPv4 addresses that stay, if the array is roomy; in any case,
        what the pass in place makes of them. */
    method Fixup()
      requires Valid()
      modifies this, addrs
      ensures numAddr == numIp6 + numIp4 <= addrs.Length && numIp6 == old(numIp6) && numIp4 == |old(Kept())|
      ensures Passed(addrs[..], old(addrs[..]), numIp6, mapped, numIp4)
      ensures Roomy(addrs.Length, numIp6, numIp4) ==> addrs[..numAddr] == old(six + MovedAll(Kept(), mapped))
    {
      var keep := mapped && all;
      if numIp6 > 0 && !keep {
        numAddr, numIp4 := numAddr - numIp4, 0;
      }
      ghost var was, kept := addrs[..], old(Kept());
      BringForward(addrs, numIp6, numIp4, mapped);
      if Roomy(addrs.Length, numIp6, numIp4) {
        PassedRoomy(addrs[..], was, six, kept, mapped);
      }
    }
  }

  lemma PassedRoomy(cur: seq<Addr>, was: seq<Addr>, six: seq<Addr>, four: seq<Addr>, map6: bool)
    requires Passed(cur, was, |six|, map6, |four|) && Roomy(|was|, |six|, |four|)
    requires forall k :: 0 <= k < |six| ==> was[k] == six[k]
    requires forall k :: 0 <= k < |four| ==> was[|was| - 1 - k] == four[k]
    ensures cur[..|six| + |four|] == six + MovedAll(four, map6)
  {
    var want := six + MovedAll(four, map6);
    forall k | 0 <= k < |six| + |four| ensures cur[k] == want[k] {
      if k >= |six| { RoomyLands(was, |six|, |four|, map6, k - |six|); }
    }
  }
}
