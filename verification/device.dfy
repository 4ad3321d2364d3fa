/**
 The peers of a device: the shift register that hands out their 24-bit indices, and the three
 tables by which a peer is found (by public key, by index, by network). A peer object is known by
 its index, which the theorems show no two peers ever share.
 */
module Devices {
  import opened Wrappers
  import opened Words

  // ---------------------------------------------------------------- the index generator

  const LFSR_POLY := 0xd80000
  const LIMIT := 0x100_0000

  /** A 24-bit number that is not zero. */
  type Register = x: int | 0 < x < LIMIT witness 1

  /** Started as `random_index` makes the three numbers, with the register at its initial value. */
  datatype Lfsr = Lfsr(initial: Register, lfsr: Register, mask: Register)

  /** The polynomial or zero, selected without a branch. */
  function Selection(x: nat): nat {
    And((0 - x % 2) % U32_LIMIT, LFSR_POLY)
  }

  /** The low bit of the register, negated as a word, is a mask of ones or of zeros. */
  lemma BranchFreeSelection(x: nat)
    ensures Selection(x) == if x % 2 == 1 then 0xd80000 else 0
  {
    if x % 2 == 1 {
      Pow2Of32();
      LimitIsPower();
      PowersGrow(24, 32);
      AndOnes(LFSR_POLY, 32);
    }
  }

  function Shift(x: Register): Register {
    ShiftInRange(x);
    Xor(x / 2, Selection(x))
  }

  /** One draw: the new register, and the index unless the assertion fires. */
  function Draw(l: Lfsr): (Lfsr, Option<nat>) {
    var lfsr := Shift(l.lfsr);
    (l.(lfsr := lfsr), if lfsr == l.initial then None else Some(Xor(l.lfsr - 1, l.mask)))
  }

  function Nth(seed: Register, n: nat): Register {
    if n == 0 then seed else Shift(Nth(seed, n - 1))
  }

  /** The n-th index handed out. */
  function IndexAt(l: Lfsr, n: nat): nat {
    Xor(Nth(l.initial, n) - 1, l.mask)
  }

  lemma LimitIsPower()
    ensures Pow2(23) == 0x80_0000 && Pow2(24) == LIMIT
  {
    assert Pow2(8) == 0x100;
    assert Pow2(16) == 0x1_0000;
  }

  /** The polynomial has bit 23 set, so it puts every smaller number above bit 23. */
  lemma PolySetsTopBit(h: nat)
    requires h < 0x80_0000
    ensures 0x80_0000 <= Xor(h, LFSR_POLY) < LIMIT
  {
    LimitIsPower();
    XorFits(h, LFSR_POLY, 24);
    if Xor(h, LFSR_POLY) < 0x80_0000 {
      XorFits(Xor(h, LFSR_POLY), h, 23);
      XorCommutes(h, LFSR_POLY);
      XorCancels(LFSR_POLY, h);
    }
  }

  lemma ShiftInRange(x: Register)
    ensures var y := Xor(x / 2, Selection(x));
            0 < y < LIMIT && (y >= 0x80_0000 <==> x % 2 == 1)
  {
    BranchFreeSelection(x);
    XorZero(x / 2);
    PolySetsTopBit(x / 2);
  }

  lemma ShiftIsInjective(x: Register, y: Register)
    requires Shift(x) == Shift(y)
    ensures x == y
  {
    ShiftInRange(x);
    ShiftInRange(y);
    BranchFreeSelection(x);
    BranchFreeSelection(y);
    XorCancels(x / 2, Selection(x));
    XorCancels(y / 2, Selection(y));
  }

  /** The register has not come round again in its first n steps. */
  ghost predicate NoReturn(seed: Register, n: nat) {
    forall k :: 1 <= k <= n ==> Nth(seed, k) != seed
  }

  lemma {:induction false} NoRepetition(seed: Register, i: nat, j: nat)
    requires i < j && NoReturn(seed, j)
    ensures Nth(seed, i) != Nth(seed, j)
  {
    if i > 0 {
      NoRepetition(seed, i - 1, j - 1);
      if Nth(seed, i) == Nth(seed, j) {
        ShiftIsInjective(Nth(seed, i - 1), Nth(seed, j - 1));
      }
    }
  }

  /** All indices handed out before the assertion fires are 24-bit numbers, and no two are alike. */
  lemma IndicesAreDistinct(l: Lfsr, i: nat, j: nat)
    requires i < j && NoReturn(l.initial, j)
    ensures IndexAt(l, i) != IndexAt(l, j)
    ensures IndexAt(l, i) < LIMIT
  {
    hide Shift, Nth;
    NoRepetition(l.initial, i, j);
    LimitIsPower();
    XorFits(Nth(l.initial, i) - 1, l.mask, 24);
    XorCancels(Nth(l.initial, i) - 1, l.mask);
    XorCancels(Nth(l.initial, j) - 1, l.mask);
  }

  /** The register is never zero, so the index that would come of it is never handed out; all others
      may be, also the index zero. */
  lemma OneIndexIsMissing(l: Lfsr, n: nat)
    ensures IndexAt(l, n) != Xor(0xff_ffff, l.mask)
  {
    XorCancels(Nth(l.initial, n) - 1, l.mask);
    XorCancels(0xff_ffff, l.mask);
  }

  /** Two draws: the register 2, with the mask 1, gives index 0 and the register 1; this gives index 1,
      and its low bit brings in the polynomial. */
  lemma TwoDraws()
    ensures Draw(Lfsr(2, 2, 1)) == (Lfsr(2, 1, 1), Some(0))
    ensures Draw(Lfsr(2, 1, 1)) == (Lfsr(2, 0xd80000, 1), Some(1))
  {
    BranchFreeSelection(1);
    BranchFreeSelection(2);
    XorZero(1);
    XorCommutes(0, 0xd80000);
    XorZero(0xd80000);
    XorCommutes(0, 1);
    assert Xor(1, 1) == 0;
  }

  /** The register values of draws 0 to n. */
  ghost function DrawnSet(seed: Register, n: nat): (r: set<nat>)
    ensures forall x :: x in r ==> 0 < x < LIMIT
  {
    (if n == 0 then {} else DrawnSet(seed, n - 1)) + {Nth(seed, n) as nat}
  }

  lemma {:induction false} NotDrawnBefore(seed: Register, m: nat, n: nat)
    requires m < n && NoReturn(seed, n)
    ensures Nth(seed, n) !in DrawnSet(seed, m)
  {
    NoRepetition(seed, m, n);
    if m > 0 {
      NotDrawnBefore(seed, m - 1, n);
    }
  }

  lemma {:induction false} EachDrawIsNew(seed: Register, n: nat)
    requires NoReturn(seed, n)
    ensures |DrawnSet(seed, n)| == n + 1
  {
    if n > 0 {
      EachDrawIsNew(seed, n - 1);
      NotDrawnBefore(seed, n - 1, n);
    }
  }

  lemma {:induction false} SubsetOfRange(s: set<nat>, m: nat)
    requires forall x :: x in s ==> 0 < x <= m
    ensures |s| <= m
  {
    if |s| > 0 {
      var x :| x in s;
      SubsetOfRange(s - {m}, m - 1);
    }
  }

  /** The generator gives out fewer than 2^24 indices before its assertion fires. */
  lemma DrawsRunOut(l: Lfsr, n: nat)
    requires NoReturn(l.initial, n)
    ensures n + 1 < LIMIT
  {
    EachDrawIsNew(l.initial, n);
    SubsetOfRange(DrawnSet(l.initial, n), LIMIT - 1);
  }

  class IndexLfsr {
    const initial: Register
    var lfsr: Register
    const mask: Register

    ghost function State(): Lfsr
      reads this
    {
      Lfsr(initial, lfsr, mask)
    }

    constructor (seed: Register, mask: Register)
      ensures State() == Lfsr(seed, seed, mask)
    {
      initial, lfsr, this.mask := seed, seed, mask;
    }

    method Next() returns (index: Option<nat>)
      modifies this`lfsr
      ensures State() == Draw(old(State())).0 && index == Draw(old(State())).1
    {
      var value := lfsr - 1;
      ShiftInRange(lfsr);
      lfsr := Xor(lfsr / 2, And((0 - lfsr % 2) % U32_LIMIT, LFSR_POLY));
      if lfsr == initial {
        return None;
      }
      return Some(Xor(value, mask));
    }
  }

  // ---------------------------------------------------------------- networks

  /** An address as its bits; a network as the bits of its prefix. */
  datatype Address = Address(v6: bool, bits: seq<bool>)
  datatype AllowedIp = AllowedIp(addr: Address, cidr: nat)
  datatype Network = Network(v6: bool, prefix: seq<bool>)

  /** `IpNetwork::new_truncate`. */
  function Truncate(a: AllowedIp): Network
    requires a.cidr <= |a.addr.bits|
  {
    Network(a.addr.v6, a.addr.bits[..a.cidr])
  }

  predicate Contains(n: Network, a: Address) {
    n.v6 == a.v6 && n.prefix <= a.bits
  }

  predicate ValidCidrs(ips: seq<AllowedIp>) {
    forall i :: 0 <= i < |ips| ==> ips[i].cidr <= |ips[i].addr.bits|
  }

  // ---------------------------------------------------------------- the tables

  type Key = nat

  datatype Peer = Peer(key: Key, index: nat, allowed: seq<AllowedIp>)

  datatype Device = Device(
    keySet: bool,
    nextIndex: Lfsr,
    peers: map<Key, Peer>,
    byIndex: map<nat, Peer>,
    byIp: map<Network, Peer>)

  function NewDevice(l: Lfsr): Device {
    Device(false, l, map[], map[], map[])
  }

  function InsertAll(byIp: map<Network, Peer>, ips: seq<AllowedIp>, p: Peer): map<Network, Peer>
    requires ValidCidrs(ips)
  {
    if ips == [] then byIp
    else InsertAll(byIp, ips[..|ips| - 1], p)[Truncate(ips[|ips| - 1]) := p]
  }

  function WithoutPeer(byIp: map<Network, Peer>, p: Peer): map<Network, Peer> {
    map n | n in byIp && byIp[n] != p :: byIp[n]
  }

  function RemovePeer(d: Device, k: Key): Device {
    if k !in d.peers then d
    else
      var p := d.peers[k];
      d.(peers := d.peers - {k}, byIndex := d.byIndex - {p.index}, byIp := WithoutPeer(d.byIp, p))
  }

  /** `update_peer` for a peer that is to stay. None is the panic of an exhausted index generator. */
  function AddPeer(d: Device, k: Key, ips: seq<AllowedIp>): Option<Device>
    requires ValidCidrs(ips)
  {
    if k in d.peers then Some(d)
    else
      var (l, index) := Draw(d.nextIndex);
      if index.None? then None
      else if !d.keySet then Some(d.(nextIndex := l))
      else
        var p := Peer(k, index.value, ips);
        Some(d.(nextIndex := l, peers := d.peers[k := p], byIndex := d.byIndex[p.index := p],
                byIp := InsertAll(d.byIp, ips, p)))
  }

  function ClearPeers(d: Device): Device {
    d.(peers := map[], byIndex := map[], byIp := map[])
  }

  datatype Op = SetKey | Add(key: Key, ips: seq<AllowedIp>) | Remove(key: Key) | Clear

  predicate ValidOp(op: Op) {
    op.Add? ==> ValidCidrs(op.ips)
  }

  function Apply(d: Device, op: Op): Option<Device>
    requires ValidOp(op)
  {
    match op
    case SetKey => Some(d.(keySet := true))
    case Add(k, ips) => AddPeer(d, k, ips)
    case Remove(k) => Some(RemovePeer(d, k))
    case Clear => Some(ClearPeers(d))
  }

  predicate ValidOps(ops: seq<Op>) {
    forall i :: 0 <= i < |ops| ==> ValidOp(ops[i])
  }

  /** The device after a run of operations, if the generator has not run out. */
  function Run(l: Lfsr, ops: seq<Op>): Option<Device>
    requires ValidOps(ops)
  {
    if ops == [] then Some(NewDevice(l))
    else
      match Run(l, ops[..|ops| - 1])
      case None => None
      case Some(d) => Apply(d, ops[|ops| - 1])
  }

  // ---------------------------------------------------------------- what every run keeps

  /** The generator has made n draws, and the indices of peers are among them. */
  ghost predicate Drawn(p: Peer, l: Lfsr, n: nat) {
    exists j: nat :: j < n && IsDraw(p.index, l, j)
  }

  predicate IsDraw(index: nat, l: Lfsr, j: nat) {
    index == IndexAt(l, j)
  }

  ghost predicate IndexInv(d: Device, l: Lfsr, n: nat) {
    && d.nextIndex == l.(lfsr := Nth(l.initial, n))
    && NoReturn(l.initial, n)
    && (forall k :: k in d.peers ==> Drawn(d.peers[k], l, n))
  }

  /** The three tables agree. */
  ghost predicate TablesAgree(d: Device) {
    && (forall k :: k in d.peers ==> d.peers[k].key == k)
    && (forall k :: k in d.peers ==> d.peers[k].index in d.byIndex && d.byIndex[d.peers[k].index] == d.peers[k])
    && (forall i :: i in d.byIndex ==> d.byIndex[i].index == i && Live(d, d.byIndex[i]))
    && (forall n :: n in d.byIp ==> Live(d, d.byIp[n]) && Lists(d.byIp[n], n))
  }

  predicate Live(d: Device, p: Peer) {
    p.key in d.peers && d.peers[p.key] == p
  }

  /** The peer was configured with this network. */
  predicate Lists(p: Peer, n: Network) {
    exists i :: 0 <= i < |p.allowed| && p.allowed[i].cidr <= |p.allowed[i].addr.bits| && Truncate(p.allowed[i]) == n
  }

  lemma {:induction false} InsertedAll(byIp: map<Network, Peer>, ips: seq<AllowedIp>, p: Peer, n: Network)
    requires ValidCidrs(ips)
    ensures var after := InsertAll(byIp, ips, p);
            if exists i :: 0 <= i < |ips| && Truncate(ips[i]) == n then n in after && after[n] == p
            else (n in after <==> n in byIp) && (n in byIp ==> after[n] == byIp[n])
  {
    if ips != [] {
      var last := |ips| - 1;
      InsertedAll(byIp, ips[..last], p, n);
      if i :| 0 <= i < |ips| && Truncate(ips[i]) == n {
        if i < last {
          assert Truncate(ips[..last][i]) == n;
        }
      } else {
        assert forall i :: 0 <= i < last ==> ips[..last][i] == ips[i];
      }
    }
  }

  /** A fresh draw is nobody's index, so no entry of the index table is ever overwritten. */
  lemma FreshIndexIsUnused(d: Device, l: Lfsr, n: nat)
    requires IndexInv(d, l, n) && TablesAgree(d)
    ensures IndexAt(l, n) !in d.byIndex
    ensures IndexAt(l, n) < LIMIT
  {
    LimitIsPower();
    XorFits(Nth(l.initial, n) - 1, l.mask, 24);
    if IndexAt(l, n) in d.byIndex {
      var p := d.byIndex[IndexAt(l, n)];
      assert Drawn(d.peers[p.key], l, n);
      var j: nat :| j < n && IsDraw(p.index, l, j);
      IndicesAreDistinct(l, j, n);
    }
  }

  lemma MoreDraws(p: Peer, l: Lfsr, n: nat)
    requires Drawn(p, l, n)
    ensures Drawn(p, l, n + 1)
  {
    var j: nat :| j < n && IsDraw(p.index, l, j);
    assert j < n + 1;
  }

  lemma DrawIsNth(l: Lfsr, n: nat)
    requires NoReturn(l.initial, n)
    ensures var (next, index) := Draw(l.(lfsr := Nth(l.initial, n)));
            && next == l.(lfsr := Nth(l.initial, n + 1))
            && (index.Some? ==> NoReturn(l.initial, n + 1) && index.value == IndexAt(l, n))
  {
  }

  lemma DrawKeepsIndices(d: Device, l: Lfsr, n: nat)
    requires IndexInv(d, l, n) && Draw(d.nextIndex).1.Some?
    ensures IndexInv(d.(nextIndex := Draw(d.nextIndex).0), l, n + 1)
    ensures Draw(d.nextIndex).1.value == IndexAt(l, n)
  {
    DrawIsNth(l, n);
    forall k | k in d.peers
      ensures Drawn(d.peers[k], l, n + 1)
    {
      MoreDraws(d.peers[k], l, n);
    }
  }

  lemma AddKeepsIndices(d: Device, l: Lfsr, n: nat, k: Key, ips: seq<AllowedIp>)
    requires IndexInv(d, l, n) && ValidCidrs(ips)
    requires k !in d.peers && AddPeer(d, k, ips).Some?
    ensures IndexInv(AddPeer(d, k, ips).value, l, n + 1)
  {
    DrawKeepsIndices(d, l, n);
    var after := AddPeer(d, k, ips).value;
    if d.keySet {
      var p := after.peers[k];
      assert IsDraw(p.index, l, n);
      forall h | h in after.peers
        ensures Drawn(after.peers[h], l, n + 1)
      {
        if h != k {
          MoreDraws(d.peers[h], l, n);
        }
      }
    }
  }

  lemma AddKeepsTables(d: Device, l: Lfsr, n: nat, k: Key, ips: seq<AllowedIp>)
    requires IndexInv(d, l, n) && TablesAgree(d) && ValidCidrs(ips) && AddPeer(d, k, ips).Some?
    ensures TablesAgree(AddPeer(d, k, ips).value)
  {
    hide InsertAll, Draw, IndexAt;
    var after := AddPeer(d, k, ips).value;
    if k !in d.peers && d.keySet {
      DrawKeepsIndices(d, l, n);
      FreshIndexIsUnused(d, l, n);
      var p := after.peers[k];
      forall m | m in after.byIp
        ensures Live(after, after.byIp[m]) && Lists(after.byIp[m], m)
      {
        InsertedAll(d.byIp, ips, p, m);
      }
    }
  }

  lemma RemoveKeepsTables(d: Device, k: Key)
    requires TablesAgree(d)
    ensures TablesAgree(RemovePeer(d, k))
  {
    var after := RemovePeer(d, k);
    if k in d.peers {
      forall h | h in after.peers
        ensures after.peers[h].index in after.byIndex && after.byIndex[after.peers[h].index] == after.peers[h]
      {
        assert d.byIndex[d.peers[h].index].key == h;
      }
      forall i | i in after.byIndex
        ensures Live(after, after.byIndex[i])
      {
        assert Live(d, d.byIndex[i]);
      }
    }
  }

  /** After any run of operations the register is some number of draws on, every live peer holds
      one of the drawn indices, and the tables agree. */
  lemma {:induction false} EveryRunKeepsTables(l: Lfsr, ops: seq<Op>) returns (n: nat)
    requires l.lfsr == l.initial && ValidOps(ops) && Run(l, ops).Some?
    ensures IndexInv(Run(l, ops).value, l, n) && TablesAgree(Run(l, ops).value)
  {
    if ops == [] {
      n := 0;
    } else {
      var op := ops[|ops| - 1];
      n := EveryRunKeepsTables(l, ops[..|ops| - 1]);
      var d := Run(l, ops[..|ops| - 1]).value;
      match op {
        case Add(k, ips) =>
          AddKeepsTables(d, l, n, k, ips);
          if k !in d.peers {
            AddKeepsIndices(d, l, n, k, ips);
            n := n + 1;
          }
        case Remove(k) =>
          RemoveKeepsTables(d, k);
        case _ =>
      }
    }
  }

  /** Looking a peer up by index finds the live peer with that index and nothing else: the index
      table and the key table hold the same peers. A message carries the index in the upper 24 bits. */
  lemma IndexLookup(l: Lfsr, ops: seq<Op>, i: nat, p: Peer)
    requires l.lfsr == l.initial && ValidOps(ops) && Run(l, ops).Some?
    ensures var d := Run(l, ops).value;
            (i in d.byIndex && d.byIndex[i] == p) <==> (Live(d, p) && p.index == i)
  {
    var n := EveryRunKeepsTables(l, ops);
  }

  /** No two live peers share an index, and every index fits the 24 bits a message has for it. */
  lemma LiveIndicesAreUnique(l: Lfsr, ops: seq<Op>, k: Key, h: Key)
    requires l.lfsr == l.initial && ValidOps(ops) && Run(l, ops).Some?
    requires var d := Run(l, ops).value; k in d.peers && h in d.peers
    ensures var d := Run(l, ops).value;
            && (d.peers[k].index == d.peers[h].index ==> k == h)
            && d.peers[k].index < LIMIT
  {
    var n := EveryRunKeepsTables(l, ops);
    var d := Run(l, ops).value;
    assert Drawn(d.peers[k], l, n);
    var j: nat :| j < n && IsDraw(d.peers[k].index, l, j);
    IndicesAreDistinct(l, j, n);
  }

  // ---------------------------------------------------------------- routes

  /** For each network, the peer that was added with it last since the tables were cleared,
      whether or not that peer is still there. */
  function LastOwner(l: Lfsr, ops: seq<Op>): map<Network, Peer>
    requires ValidOps(ops)
  {
    if ops == [] then map[]
    else
      var owners := LastOwner(l, ops[..|ops| - 1]);
      match ops[|ops| - 1]
      case Clear => map[]
      case Add(k, ips) =>
        (match (Run(l, ops[..|ops| - 1]), Run(l, ops))
         case (Some(d), Some(after)) =>
           if k !in d.peers && k in after.peers then InsertAll(owners, ips, after.peers[k]) else owners
         case _ => owners)
      case _ => owners
  }

  ghost predicate RoutesFollow(d: Device, owners: map<Network, Peer>) {
    forall n :: (n in d.byIp <==> n in owners && Live(d, owners[n])) && (n in d.byIp ==> d.byIp[n] == owners[n])
  }

  ghost predicate OwnersDrawn(owners: map<Network, Peer>, l: Lfsr, n: nat) {
    forall m :: m in owners ==> Drawn(owners[m], l, n)
  }

  lemma AddKeepsRoutes(d: Device, owners: map<Network, Peer>, l: Lfsr, n: nat, k: Key, ips: seq<AllowedIp>)
    requires IndexInv(d, l, n) && TablesAgree(d) && ValidCidrs(ips)
    requires k !in d.peers && d.keySet && AddPeer(d, k, ips).Some?
    requires RoutesFollow(d, owners) && OwnersDrawn(owners, l, n)
    ensures var after := AddPeer(d, k, ips).value;
            RoutesFollow(after, InsertAll(owners, ips, after.peers[k]))
            && OwnersDrawn(InsertAll(owners, ips, after.peers[k]), l, n + 1)
  {
    var after := AddPeer(d, k, ips).value;
    var p := after.peers[k];
    DrawKeepsIndices(d, l, n);
    assert IsDraw(p.index, l, n);
    forall m
      ensures var owners' := InsertAll(owners, ips, p);
              && (m in after.byIp <==> m in owners' && Live(after, owners'[m]))
              && (m in after.byIp ==> after.byIp[m] == owners'[m])
              && (m in owners' ==> Drawn(owners'[m], l, n + 1))
    {
      InsertedAll(d.byIp, ips, p, m);
      InsertedAll(owners, ips, p, m);
      if m in owners {
        var j: nat :| j < n && IsDraw(owners[m].index, l, j);
        IndicesAreDistinct(l, j, n);
        assert owners[m] != p;
        MoreDraws(owners[m], l, n);
      }
    }
  }

  lemma {:induction false} EveryRunFollowsOwners(l: Lfsr, ops: seq<Op>) returns (n: nat)
    requires l.lfsr == l.initial && ValidOps(ops) && Run(l, ops).Some?
    ensures IndexInv(Run(l, ops).value, l, n) && TablesAgree(Run(l, ops).value)
    ensures RoutesFollow(Run(l, ops).value, LastOwner(l, ops)) && OwnersDrawn(LastOwner(l, ops), l, n)
  {
    if ops == [] {
      n := 0;
    } else {
      var init := ops[..|ops| - 1];
      var op := ops[|ops| - 1];
      n := EveryRunFollowsOwners(l, init);
      var d := Run(l, init).value;
      var owners := LastOwner(l, init);
      match op {
        case Add(k, ips) =>
          AddKeepsTables(d, l, n, k, ips);
          if k !in d.peers {
            AddKeepsIndices(d, l, n, k, ips);
            forall m | m in owners
              ensures Drawn(owners[m], l, n + 1)
            {
              MoreDraws(owners[m], l, n);
            }
            if d.keySet {
              AddKeepsRoutes(d, owners, l, n, k, ips);
            }
            n := n + 1;
          }
        case Remove(k) =>
          RemoveKeepsTables(d, k);
        case _ =>
      }
    }
  }

  /** A network is routed exactly when the peer last added with it is still there, and then to that
      peer: removing it does not give the network back to an earlier owner. */
  lemma RouteIsLastOwner(l: Lfsr, ops: seq<Op>, m: Network)
    requires l.lfsr == l.initial && ValidOps(ops) && Run(l, ops).Some?
    ensures var d, owners := Run(l, ops).value, LastOwner(l, ops);
            && (m in d.byIp <==> m in owners && Live(d, owners[m]))
            && (m in d.byIp ==> d.byIp[m] == owners[m] && Live(d, d.byIp[m]) && Lists(d.byIp[m], m))
  {
    var n := EveryRunFollowsOwners(l, ops);
  }

  /** Removing a peer keeps exactly the routes that went to another one. */
  lemma RemovalKeepsOtherRoutes(l: Lfsr, ops: seq<Op>, k: Key, m: Network)
    requires l.lfsr == l.initial && ValidOps(ops) && Run(l, ops).Some?
    ensures var d, after := Run(l, ops).value, RemovePeer(Run(l, ops).value, k);
            m in after.byIp <==> m in d.byIp && d.byIp[m].key != k
  {
    var n := EveryRunKeepsTables(l, ops);
  }

  lemma RunGrows(l: Lfsr, ops: seq<Op>, op: Op)
    requires ValidOps(ops) && ValidOp(op) && Run(l, ops).Some?
    ensures ValidOps(ops + [op]) && Run(l, ops + [op]) == Apply(Run(l, ops).value, op)
  {
    assert (ops + [op])[..|ops|] == ops;
  }

  /** Whenever a new peer takes a network over and is removed again, the peer that had it before is
      still there and lists it, but no longer gets its packets. */
  lemma RemovalUnroutes(l: Lfsr, ops: seq<Op>, k: Key, ip: AllowedIp)
    requires l.lfsr == l.initial && ValidOps(ops) && Run(l, ops).Some? && ip.cidr <= |ip.addr.bits|
    requires var d := Run(l, ops).value;
             d.keySet && k !in d.peers && Truncate(ip) in d.byIp && AddPeer(d, k, [ip]).Some?
    ensures var d, taken := Run(l, ops).value, ops + [Add(k, [ip])];
            && ValidOps(taken + [Remove(k)]) && Run(l, taken + [Remove(k)]).Some?
            && var after, before := Run(l, taken + [Remove(k)]).value, d.byIp[Truncate(ip)];
            && Truncate(ip) !in after.byIp && Live(after, before) && Lists(before, Truncate(ip))
  {
    hide Draw;
    var d := Run(l, ops).value;
    var n := EveryRunKeepsTables(l, ops);
    RunGrows(l, ops, Add(k, [ip]));
    RunGrows(l, ops + [Add(k, [ip])], Remove(k));
    InsertedAll(d.byIp, [ip], AddPeer(d, k, [ip]).value.peers[k], Truncate(ip));
    assert Truncate([ip][0]) == Truncate(ip);
  }

  lemma FirstDraws()
    ensures Shift(2) == 1 && Shift(1) != 2
  {
    ShiftInRange(1);
    BranchFreeSelection(2);
    XorZero(1);
  }

  /** It does happen: add, take over, remove. */
  lemma NetworkIsLost(mask: Register, a: Key, b: Key, ip: AllowedIp)
    requires a != b && ip.cidr <= |ip.addr.bits|
    ensures var l := Lfsr(2, 2, mask);
            var ops := [Op.SetKey] + [Add(a, [ip])] + [Add(b, [ip])] + [Remove(b)];
            && ValidOps(ops) && Run(l, ops).Some?
            && var d := Run(l, ops).value;
            && a in d.peers && Lists(d.peers[a], Truncate(ip)) && Truncate(ip) !in d.byIp
  {
    var l := Lfsr(2, 2, mask);
    FirstDraws();
    OnePeer(l, a, ip);
    hide Run, Xor, Shift, RemovePeer;
    RemovalUnroutes(l, [Op.SetKey] + [Add(a, [ip])], b, ip);
  }

  /** A first peer gets an index and its network. */
  lemma OnePeer(l: Lfsr, a: Key, ip: AllowedIp)
    requires ip.cidr <= |ip.addr.bits| && Draw(l).1.Some?
    ensures var ops := [Op.SetKey] + [Add(a, [ip])];
            && ValidOps(ops) && Run(l, ops).Some?
            && var d := Run(l, ops).value;
            && d.keySet && d.peers.Keys == {a} && Truncate(ip) in d.byIp && d.byIp[Truncate(ip)] == d.peers[a]
            && d.nextIndex == Draw(l).0
  {
    hide Draw, InsertAll;
    var setKey := [Op.SetKey];
    RunGrows(l, [], Op.SetKey);
    assert [] + setKey == setKey;
    RunGrows(l, setKey, Add(a, [ip]));
    InsertedAll(map[], [ip], Peer(a, Draw(l).1.value, [ip]), Truncate(ip));
    assert Truncate([ip][0]) == Truncate(ip);
  }

  /** `longest_match`, trying prefixes of the address from the longest down. */
  function Find(byIp: map<Network, Peer>, a: Address, len: nat): (r: Option<Peer>)
    requires len <= |a.bits|
    ensures r.None? ==> forall m :: m in byIp && Contains(m, a) && |m.prefix| <= len ==> false
    ensures r.Some? ==> exists m :: m in byIp && byIp[m] == r.value && Longest(byIp, a, m, len)
  {
    var m := Network(a.v6, a.bits[..len]);
    if m in byIp then
      assert forall o :: Contains(o, a) && |o.prefix| <= len ==> |o.prefix| <= |m.prefix|;
      assert Longest(byIp, a, m, len);
      Some(byIp[m])
    else if len == 0 then
      assert forall o :: Contains(o, a) && |o.prefix| <= len ==> o == m;
      None
    else
      assert forall o :: Contains(o, a) && |o.prefix| == len ==> o == m;
      Find(byIp, a, len - 1)
  }

  ghost predicate Longest(byIp: map<Network, Peer>, a: Address, m: Network, len: nat) {
    && Contains(m, a) && |m.prefix| <= len
    && forall o :: o in byIp && Contains(o, a) && |o.prefix| <= len ==> |o.prefix| <= |m.prefix|
  }

  /** After any run, a destination is sent only to a live peer configured with an address of the same
      version that agrees with it in the first `cidr` bits. */
  lemma PacketsGoToLivePeers(l: Lfsr, ops: seq<Op>, a: Address)
    requires l.lfsr == l.initial && ValidOps(ops) && Run(l, ops).Some?
    requires Find(Run(l, ops).value.byIp, a, |a.bits|).Some?
    ensures var d := Run(l, ops).value;
            var p := Find(d.byIp, a, |a.bits|).value;
            Live(d, p) && exists i :: 0 <= i < |p.allowed| && Covers(p.allowed[i], a)
  {
    hide Run, Find;
    var n := EveryRunKeepsTables(l, ops);
    var d := Run(l, ops).value;
    var p := Find(d.byIp, a, |a.bits|).value;
    var m :| m in d.byIp && d.byIp[m] == p && Longest(d.byIp, a, m, |a.bits|);
    ListedCovers(p, m, a);
  }

  lemma ListedCovers(p: Peer, m: Network, a: Address)
    requires Lists(p, m) && Contains(m, a)
    ensures exists i :: 0 <= i < |p.allowed| && Covers(p.allowed[i], a)
  {
    var i :| 0 <= i < |p.allowed| && p.allowed[i].cidr <= |p.allowed[i].addr.bits| && Truncate(p.allowed[i]) == m;
    var ip := p.allowed[i];
    forall k | 0 <= k < ip.cidr
      ensures ip.addr.bits[k] == a.bits[k]
    {
      assert m.prefix[k] == ip.addr.bits[k];
    }
    assert Covers(ip, a);
  }

  /** The configured address and a destination agree in as many bits as are configured. */
  predicate Covers(ip: AllowedIp, a: Address) {
    && ip.addr.v6 == a.v6 && ip.cidr <= |ip.addr.bits| && ip.cidr <= |a.bits|
    && forall k :: 0 <= k < ip.cidr ==> ip.addr.bits[k] == a.bits[k]
  }

  /** A destination that a live peer was last given is sent to it or to a peer with a longer match. */
  lemma CoveredIsRouted(l: Lfsr, ops: seq<Op>, a: Address, k: Key, i: nat)
    requires l.lfsr == l.initial && ValidOps(ops) && Run(l, ops).Some?
    requires var d := Run(l, ops).value;
             && k in d.peers && i < |d.peers[k].allowed| && Covers(d.peers[k].allowed[i], a)
             && Truncate(d.peers[k].allowed[i]) in LastOwner(l, ops)
             && LastOwner(l, ops)[Truncate(d.peers[k].allowed[i])] == d.peers[k]
    ensures Find(Run(l, ops).value.byIp, a, |a.bits|).Some?
  {
    hide Run, LastOwner, Find;
    var d := Run(l, ops).value;
    var ip := d.peers[k].allowed[i];
    var m := Truncate(ip);
    var n := EveryRunKeepsTables(l, ops);
    RouteIsLastOwner(l, ops, m);
    CoveredIsContained(ip, a);
    assert m in d.byIp && Contains(m, a) && |m.prefix| <= |a.bits|;
  }

  lemma CoveredIsContained(ip: AllowedIp, a: Address)
    requires Covers(ip, a)
    ensures Contains(Truncate(ip), a)
  {
  }

  /** Before the device has a private key there are no peers, whatever is configured. */
  lemma {:induction false} NoPeersWithoutKey(l: Lfsr, ops: seq<Op>)
    requires ValidOps(ops) && Run(l, ops).Some? && forall i :: 0 <= i < |ops| ==> !ops[i].SetKey?
    ensures var d := Run(l, ops).value;
            !d.keySet && d.peers == map[] && d.byIndex == map[] && d.byIp == map[]
  {
    if ops != [] {
      NoPeersWithoutKey(l, ops[..|ops| - 1]);
    }
  }

  /** A key that is configured already stays with its peer, and a removed one is gone. */
  lemma KnownKeyStays(d: Device, k: Key, ips: seq<AllowedIp>)
    requires ValidCidrs(ips) && k in d.peers
    ensures Apply(d, Add(k, ips)) == Some(d)
    ensures Apply(d, Remove(k)).Some? && Apply(d, Remove(k)).value.peers == d.peers - {k}
  {
  }

  // ---------------------------------------------------------------- the device object

  class DeviceObject {
    var keySet: bool
    const nextIndex: IndexLfsr
    var peers: map<Key, Peer>
    var peersByIdx: map<nat, Peer>
    var peersByIp: map<Network, Peer>

    ghost function State(): Device
      reads this, nextIndex
    {
      Device(keySet, nextIndex.State(), peers, peersByIdx, peersByIp)
    }

    constructor (seed: Register, mask: Register)
      ensures fresh(nextIndex) && State() == NewDevice(Lfsr(seed, seed, mask))
    {
      nextIndex := new IndexLfsr(seed, mask);
      keySet, peers, peersByIdx, peersByIp := false, map[], map[], map[];
    }

    method SetKey()
      modifies this
      ensures Some(State()) == Apply(old(State()), Op.SetKey)
    {
      keySet := true;
    }

    method RemovePeer(k: Key)
      modifies this
      ensures Some(State()) == Apply(old(State()), Remove(k))
    {
      if k in peers {
        var p := peers[k];
        peers := peers - {k};
        peersByIdx := peersByIdx - {p.index};
        peersByIp := WithoutPeer(peersByIp, p);
      }
    }

    /** `update_peer`; false is the panic of the index generator. */
    method UpdatePeer(k: Key, remove: bool, ips: seq<AllowedIp>) returns (ok: bool)
      requires ValidCidrs(ips)
      modifies this, nextIndex
      ensures ok == Apply(old(State()), if remove then Remove(k) else Add(k, ips)).Some?
      ensures ok ==> Some(State()) == Apply(old(State()), if remove then Remove(k) else Add(k, ips))
    {
      if remove {
        RemovePeer(k);
        return true;
      }
      if k in peers {
        return true;
      }
      var index := nextIndex.Next();
      if index.None? {
        return false;
      }
      if !keySet {
        return true;
      }
      var p := Peer(k, index.value, ips);
      peers := peers[k := p];
      peersByIdx := peersByIdx[p.index := p];
      for i := 0 to |ips|
        invariant nextIndex.State() == Draw(old(nextIndex.State())).0
        invariant keySet == old(keySet) && peers == old(peers)[k := p] && peersByIdx == old(peersByIdx)[p.index := p]
        invariant peersByIp == InsertAll(old(peersByIp), ips[..i], p)
      {
        peersByIp := peersByIp[Truncate(ips[i]) := p];
        assert ips[..i + 1][..i] == ips[..i];
      }
      assert ips[..|ips|] == ips;
      return true;
    }

    method ClearPeers()
      modifies this
      ensures Some(State()) == Apply(old(State()), Op.Clear)
    {
      peers := map[];
      peersByIdx := map[];
      peersByIp := map[];
    }
  }
}
