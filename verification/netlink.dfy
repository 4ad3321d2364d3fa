/**
 Sending a device configuration to the kernel in netlink messages of bounded size, and putting the
 peers of a dump that was split in the same way together again. A message is built attribute by
 attribute while there is room; when there is none, the current allowed IP or peer is cancelled and
 the next message resumes from two cursors. A piece of a peer is itself a peer: the first piece has
 all its attributes, the others only the key and the removal flag.
 */
module Netlink {
  import opened Wrappers
  import opened ByteStrings

  type Key = Bytes

  datatype Family = Inet | Inet6 | OtherFamily
  datatype AllowedIp = AllowedIp(family: Family, addr: Bytes, cidr: byte, flags: nat)
  datatype Endpoint = NoEndpoint | Endpoint4(addr4: Bytes) | Endpoint6(addr6: Bytes)

  datatype WgPeer = WgPeer(
    key: Key,
    removeMe: bool,
    replaceIps: bool,
    psk: Option<Bytes>,
    endpoint: Endpoint,
    keepalive: Option<nat>,
    ips: seq<AllowedIp>)

  datatype DeviceAttrs = DeviceAttrs(
    privateKey: Option<Bytes>,
    listenPort: Option<nat>,
    fwmark: Option<nat>,
    replacePeers: bool)

  datatype WgDevice = WgDevice(name: string, attrs: DeviceAttrs, peers: seq<WgPeer>)

  datatype Message = Message(attrs: Option<DeviceAttrs>, peers: seq<WgPeer>, length: nat)

  // ---------------------------------------------------------------- sizes

  const NEST := 4

  /** An attribute with n bytes of payload: header, payload, padding. */
  function Attr(n: nat): nat {
    4 + (n + 3) / 4 * 4
  }

  /** A run of attributes, given by their payload sizes. */
  function AttrsSize(sizes: seq<nat>): nat {
    if sizes == [] then 0 else AttrsSize(sizes[..|sizes| - 1]) + Attr(sizes[|sizes| - 1])
  }

  /** The attributes inside the nest of an allowed IP, in the order they are put. */
  function IpAttrs(ip: AllowedIp): seq<nat> {
    [2]
    + (match ip.family case Inet => [4] case Inet6 => [16] case OtherFamily => [])
    + [1]
    + (if ip.flags != 0 then [4] else [])
  }

  function IpSize(ip: AllowedIp): nat {
    NEST + AttrsSize(IpAttrs(ip))
  }

  function IpsSize(ips: seq<AllowedIp>): nat {
    if ips == [] then 0 else IpsSize(ips[..|ips| - 1]) + IpSize(ips[|ips| - 1])
  }

  /** The attributes inside the nest of a peer that come before its allowed IPs. */
  function HeadAttrs(p: WgPeer): seq<nat> {
    [32] + HeadOptions(p) + (if p.removeMe || p.replaceIps then [4] else [])
  }

  function HeadOptions(p: WgPeer): seq<nat> {
    (if p.psk.Some? then [32] else [])
    + (match p.endpoint case NoEndpoint => [] case Endpoint4(_) => [16] case Endpoint6(_) => [28])
    + (if p.keepalive.Some? then [2] else [])
  }

  function HeadSize(p: WgPeer): nat {
    NEST + AttrsSize(HeadAttrs(p))
  }

  lemma {:induction false} AttrsSizeJoined(a: seq<nat>, b: seq<nat>)
    ensures AttrsSize(a + b) == AttrsSize(a) + AttrsSize(b)
  {
    if b == [] {
      assert a + b == a;
    } else {
      AttrsSizeJoined(a, b[..|b| - 1]);
      assert (a + b)[..|a + b| - 1] == a + b[..|b| - 1];
    }
  }

  lemma OneAttr(n: nat)
    ensures AttrsSize([n]) == Attr(n)
  {
    assert [n][..0] == [];
  }

  /** The head of a peer takes 40 bytes, and more for each attribute: 36 for a preshared key, 20 or 32
      for an endpoint, 8 for a keepalive and 8 for flags. */
  lemma HeadSizeIs(p: WgPeer)
    ensures HeadSize(p) ==
            40 + (if p.psk.Some? then 36 else 0)
            + (match p.endpoint case NoEndpoint => 0 case Endpoint4(_) => 20 case Endpoint6(_) => 32)
            + (if p.keepalive.Some? then 8 else 0) + (if p.removeMe || p.replaceIps then 8 else 0)
  {
    hide AttrsSize;
    var psk := if p.psk.Some? then [32] else [];
    var endpoint := match p.endpoint case NoEndpoint => [] case Endpoint4(_) => [16] case Endpoint6(_) => [28];
    var keepalive := if p.keepalive.Some? then [2] else [];
    var flags := if p.removeMe || p.replaceIps then [4] else [];
    NoAttr();
    OneAttr(16);
    OneAttr(28);
    OneAttr(32);
    PerhapsAttr(p.psk.Some?, 32);
    PerhapsAttr(p.keepalive.Some?, 2);
    PerhapsAttr(p.removeMe || p.replaceIps, 4);
    AttrsSizeJoined(psk, endpoint);
    AttrsSizeJoined(psk + endpoint, keepalive);
    AttrsSizeJoined([32], HeadOptions(p));
    AttrsSizeJoined([32] + HeadOptions(p), flags);
  }

  /** A later piece has a smaller head than the first. */
  lemma LaterHeadIsSmaller(p: WgPeer)
    ensures HeadSize(Head(p, true)) <= HeadSize(Head(p, false))
  {
    hide HeadSize;
    HeadSizeIs(Head(p, true));
    HeadSizeIs(Head(p, false));
  }

  lemma HeadSizeBound(p: WgPeer)
    ensures HeadSize(p) <= 124
  {
    hide HeadSize;
    HeadSizeIs(p);
  }

  lemma NoAttr()
    ensures AttrsSize([]) == 0
  {
  }

  lemma PerhapsAttr(given: bool, n: nat)
    ensures AttrsSize(if given then [n] else []) == if given then Attr(n) else 0
  {
    NoAttr();
    OneAttr(n);
  }

  lemma IpSizeBound(ip: AllowedIp)
    ensures IpSize(ip) <= 48
  {
    var addr := match ip.family case Inet => [4] case Inet6 => [16] case OtherFamily => [];
    AttrsSizeJoined([2], addr);
    AttrsSizeJoined([2] + addr, [1]);
    AttrsSizeJoined([2] + addr + [1], if ip.flags != 0 then [4] else []);
    OneAttr(1);
    OneAttr(2);
    OneAttr(4);
    OneAttr(16);
  }

  /** The two message headers and the interface name. */
  function Base(dev: WgDevice): nat {
    16 + 4 + Attr(|dev.name| + 1)
  }

  function DeviceSize(a: DeviceAttrs): nat {
    (if a.privateKey.Some? then Attr(32) else 0)
    + (if a.listenPort.Some? then Attr(2) else 0)
    + (if a.fwmark.Some? then Attr(4) else 0)
    + (if a.replacePeers then Attr(4) else 0)
  }

  lemma JoinedSizes(a: nat, b: nat, c: nat)
    ensures AttrsSize([a] + [b] + [c]) == Attr(a) + Attr(b) + Attr(c)
  {
    AttrsSizeJoined([a] + [b], [c]);
    AttrsSizeJoined([a], [b]);
    OneAttr(a);
    OneAttr(b);
    OneAttr(c);
  }

  /** An allowed IP takes 28 bytes, of IPv6 40, and 8 more with flags: four for its nest, 8 for the
      family, 8 or 20 for the address and 8 for the prefix length. */
  lemma IpSizes(ip: AllowedIp)
    requires ip.family != OtherFamily
    ensures IpSize(ip) == (if ip.family == Inet then 28 else 40) + (if ip.flags != 0 then 8 else 0)
  {
    var address := if ip.family == Inet then 4 else 16;
    JoinedSizes(2, address, 1);
    hide AttrsSize;
    NoAttr();
    OneAttr(4);
    AttrsSizeJoined([2] + [address] + [1], if ip.flags != 0 then [4] else []);
  }

  /** The headers take 20 bytes, the name with its zero 4 and what it is rounded up to; of the device
      attributes the private key takes 36 bytes and each other one 8. */
  lemma DeviceSizes(dev: WgDevice, a: DeviceAttrs)
    ensures Base(dev) == 24 + (|dev.name| + 4) / 4 * 4
    ensures DeviceSize(a) ==
            (if a.privateKey.Some? then 36 else 0) + (if a.listenPort.Some? then 8 else 0)
            + (if a.fwmark.Some? then 8 else 0) + (if a.replacePeers then 8 else 0)
  {
  }

  // ---------------------------------------------------------------- one message

  /** Where the next message resumes: before the first one, at a peer and perhaps one of its
      allowed IPs, or nowhere because everything has been sent. */
  datatype Cursor = Start | At(peer: nat, ip: Option<nat>) | Done

  predicate ValidCursor(peers: seq<WgPeer>, c: Cursor) {
    c.At? ==> c.peer < |peers| && (c.ip.Some? ==> c.ip.value < |peers[c.peer].ips|)
  }

  /** The first piece of a peer and its later pieces, before any allowed IPs are added. */
  function Head(p: WgPeer, later: bool): WgPeer {
    if later then WgPeer(p.key, p.removeMe, false, None, NoEndpoint, None, []) else p.(ips := [])
  }

  /** How far the allowed IPs from j on fit into what is left of the message. */
  function TakeIps(ips: seq<AllowedIp>, j: nat, length: nat, cap: nat): (k: nat)
    requires j <= |ips|
    ensures j <= k <= |ips|
    ensures length <= cap ==> length + IpsSize(ips[j..k]) <= cap
    ensures k < |ips| ==> length + IpsSize(ips[j..k]) + IpSize(ips[k]) > cap
    decreases |ips| - j
  {
    if j == |ips| || length + IpSize(ips[j]) > cap then
      assert ips[j..j] == [];
      j
    else
      var k := TakeIps(ips, j + 1, length + IpSize(ips[j]), cap);
      IpsSizeSplit(ips, j, k);
      k
  }

  lemma {:induction false} IpsSizeSplit(ips: seq<AllowedIp>, j: nat, k: nat)
    requires j < k <= |ips|
    ensures IpsSize(ips[j..k]) == IpSize(ips[j]) + IpsSize(ips[j + 1..k])
  {
    hide HeadSize, IpSize;
    var s, t := ips[j..k], ips[j + 1..k];
    if j + 1 == k {
      assert s[..0] == [] && t == [];
    } else {
      IpsSizeSplit(ips, j, k - 1);
      assert s[..|s| - 1] == ips[j..k - 1] && t[..|t| - 1] == ips[j + 1..k - 1];
    }
  }

  /** What became of one peer: cancelled, cut after some of its allowed IPs, or put in whole. */
  datatype Put = NoRoom | Partly(piece: WgPeer, ip: nat, length: nat) | Wholly(piece: WgPeer, length: nat)

  /** Peer p, or what is left of it from allowed IP `ip` on, into a message that already holds
      `length` bytes. */
  function PutPeer(p: WgPeer, ip: Option<nat>, length: nat, cap: nat): (r: Put)
    requires ip.Some? ==> ip.value < |p.ips|
    ensures r.Partly? ==> r.ip < |p.ips|
    ensures !r.NoRoom? ==> length <= r.length <= cap
  {
    var head := Head(p, ip.Some?);
    var afterHead := length + HeadSize(head);
    var j := ip.GetOr(0);
    if afterHead > cap then NoRoom
    else if p.ips == [] then Wholly(head, afterHead)
    else if afterHead + NEST > cap then Partly(head, j, afterHead)
    else
      var k := TakeIps(p.ips, j, afterHead + NEST, cap);
      var piece := head.(ips := p.ips[j..k]);
      var afterIps := afterHead + NEST + IpsSize(p.ips[j..k]);
      if k < |p.ips| then Partly(piece, k, afterIps) else Wholly(piece, afterIps)
  }

  datatype Filled = Filled(pieces: seq<WgPeer>, next: Cursor, length: nat)

  /** Peers from i on, the first of them from its allowed IP `ip` on. */
  function Fill(peers: seq<WgPeer>, i: nat, ip: Option<nat>, length: nat, cap: nat): (f: Filled)
    requires i <= |peers| && (ip.Some? ==> i < |peers| && ip.value < |peers[i].ips|)
    ensures ValidCursor(peers, f.next) && !f.next.Start?
    ensures length <= cap ==> f.length <= cap
    decreases |peers| - i
  {
    if i == |peers| then Filled([], Done, length)
    else
      match PutPeer(peers[i], ip, length, cap)
      case NoRoom => Filled([], At(i, ip), length)
      case Partly(piece, k, after) => Filled([piece], At(i, Some(k)), after)
      case Wholly(piece, after) =>
        var rest := Fill(peers, i + 1, None, after, cap);
        rest.(pieces := [piece] + rest.pieces)
  }

  function PeerOf(c: Cursor): nat
    requires !c.Done?
  {
    if c.Start? then 0 else c.peer
  }

  function IpOf(c: Cursor): Option<nat>
    requires !c.Done?
  {
    if c.Start? then None else c.ip
  }

  /** The message sent from a cursor, and the cursor after it. */
  function NextMessage(dev: WgDevice, cap: nat, c: Cursor): (r: (Message, Cursor))
    requires ValidCursor(dev.peers, c) && !c.Done?
    ensures ValidCursor(dev.peers, r.1) && !r.1.Start?
  {
    var attrs := if c.Start? then Some(dev.attrs) else None;
    var length := Base(dev) + if c.Start? then DeviceSize(dev.attrs) else 0;
    if dev.peers == [] then (Message(attrs, [], length), Done)
    else
      var f := Fill(dev.peers, PeerOf(c), IpOf(c), length + NEST, cap);
      (Message(attrs, f.pieces, f.length), f.next)
  }

  /** A message is as full as it can be: what comes next does not fit behind what is there. */
  lemma {:induction false} NothingMoreFits(peers: seq<WgPeer>, i: nat, ip: Option<nat>, length: nat, cap: nat)
    requires i <= |peers| && (ip.Some? ==> i < |peers| && ip.value < |peers[i].ips|)
    ensures var f := Fill(peers, i, ip, length, cap);
            && (f.next.Done? ==> |f.pieces| == |peers| - i)
            && (f.next.At? && f.next.ip.None? ==> f.length + HeadSize(peers[f.next.peer]) > cap)
            && (f.next.At? && f.next.ip.Some? && f.pieces != [] ==>
                  f.length + IpSize(peers[f.next.peer].ips[f.next.ip.value]) > cap)
            && (f.pieces == [] && i < |peers| ==> length + HeadSize(Head(peers[i], ip.Some?)) > cap)
    decreases |peers| - i
  {
    hide HeadSize, IpSize, IpsSize;
    if i < |peers| {
      NestInIp(peers[i]);
      HeadWithoutIps(peers[i]);
      match PutPeer(peers[i], ip, length, cap)
      case NoRoom =>
      case Partly(_, _, _) =>
      case Wholly(_, after) => NothingMoreFits(peers, i + 1, None, after, cap);
    }
  }

  lemma NestInIp(p: WgPeer)
    ensures forall j :: 0 <= j < |p.ips| ==> IpSize(p.ips[j]) >= NEST
  {
  }

  lemma HeadWithoutIps(p: WgPeer)
    ensures HeadSize(p.(ips := [])) == HeadSize(p)
  {
  }

  // ---------------------------------------------------------------- the whole exchange

  /** The cursor after n messages, and the messages themselves; nothing is sent once it is done. */
  function After(dev: WgDevice, cap: nat, n: nat): (r: (seq<Message>, Cursor))
    ensures ValidCursor(dev.peers, r.1)
    ensures r.1.Start? <==> n == 0
  {
    if n == 0 then ([], Start)
    else
      var (sent, c) := After(dev, cap, n - 1);
      if c.Done? then (sent, c)
      else
        var (m, next) := NextMessage(dev, cap, c);
        (sent + [m], next)
  }

  ghost predicate Finishes(dev: WgDevice, cap: nat) {
    exists n: nat :: IsDone(dev, cap, n)
  }

  predicate IsDone(dev: WgDevice, cap: nat, n: nat) {
    After(dev, cap, n).1.Done?
  }

  /** In a message of its own, the head of a peer fits, and so does a later piece with any one of
      its allowed IPs. */
  ghost predicate PeerFits(dev: WgDevice, cap: nat, p: WgPeer) {
    && HeadFits(dev, cap, p)
    && forall j :: 0 <= j < |p.ips| ==> IpFits(dev, cap, p, p.ips[j])
  }

  predicate HeadFits(dev: WgDevice, cap: nat, p: WgPeer) {
    Base(dev) + NEST + HeadSize(Head(p, false)) <= cap
  }

  predicate IpFits(dev: WgDevice, cap: nat, p: WgPeer, ip: AllowedIp) {
    Base(dev) + NEST + HeadSize(Head(p, true)) + NEST + IpSize(ip) <= cap
  }

  ghost predicate AllFit(dev: WgDevice, cap: nat) {
    forall i :: 0 <= i < |dev.peers| ==> PeerFits(dev, cap, dev.peers[i])
  }

  /** All that lies before a cursor fits. */
  ghost predicate FitsBefore(dev: WgDevice, cap: nat, c: Cursor) {
    match c
    case Start => true
    case Done => AllFit(dev, cap)
    case At(i, ip) =>
      && i < |dev.peers|
      && (forall m :: 0 <= m < i ==> PeerFits(dev, cap, dev.peers[m]))
      && FitsUpTo(dev, cap, dev.peers[i], ip)
  }

  lemma {:induction false} EachIpSize(ips: seq<AllowedIp>, j: nat)
    requires j < |ips|
    ensures IpSize(ips[j]) <= IpsSize(ips)
  {
    if j < |ips| - 1 {
      EachIpSize(ips[..|ips| - 1], j);
    }
  }

  /** The allowed IPs before one, and the head if the one is there, fit. */
  ghost predicate FitsUpTo(dev: WgDevice, cap: nat, p: WgPeer, ip: Option<nat>) {
    ip.Some? ==>
      && HeadFits(dev, cap, p)
      && ip.value <= |p.ips|
      && forall j :: 0 <= j < ip.value ==> IpFits(dev, cap, p, p.ips[j])
  }

  lemma TakenFit(dev: WgDevice, p: WgPeer, j: nat, k: nat, afterHead: nat, cap: nat)
    requires j <= k <= |p.ips| && afterHead + NEST + IpsSize(p.ips[j..k]) <= cap
    requires afterHead >= Base(dev) + NEST + HeadSize(Head(p, true))
    ensures forall m :: j <= m < k ==> IpFits(dev, cap, p, p.ips[m])
  {
    hide HeadSize, IpSize;
    forall m | j <= m < k
      ensures IpFits(dev, cap, p, p.ips[m])
    {
      EachIpSize(p.ips[j..k], m - j);
      assert p.ips[j..k][m - j] == p.ips[m];
    }
  }

  /** Whatever has been put into a message fits into one. */
  lemma PutFits(dev: WgDevice, p: WgPeer, ip: Option<nat>, length: nat, cap: nat)
    requires ip.Some? ==> ip.value < |p.ips|
    requires FitsUpTo(dev, cap, p, ip) && length >= Base(dev) + NEST
    ensures var r := PutPeer(p, ip, length, cap);
            && (r.Partly? ==> FitsUpTo(dev, cap, p, Some(r.ip)))
            && (r.Wholly? ==> PeerFits(dev, cap, p))
  {
    hide HeadSize, IpSize, IpsSize, TakeIps;
    var afterHead := length + HeadSize(Head(p, ip.Some?));
    var j := ip.GetOr(0);
    LaterHeadIsSmaller(p);
    assert afterHead <= cap ==> HeadFits(dev, cap, p);
    if afterHead + NEST <= cap && p.ips != [] {
      TakenFit(dev, p, j, TakeIps(p.ips, j, afterHead + NEST, cap), afterHead, cap);
    }
  }

  lemma {:induction false} FilledFits(dev: WgDevice, i: nat, ip: Option<nat>, length: nat, cap: nat)
    requires i <= |dev.peers| && (ip.Some? ==> i < |dev.peers| && ip.value < |dev.peers[i].ips|)
    requires forall m :: 0 <= m < i ==> PeerFits(dev, cap, dev.peers[m])
    requires i < |dev.peers| ==> FitsUpTo(dev, cap, dev.peers[i], ip)
    requires length >= Base(dev) + NEST
    ensures FitsBefore(dev, cap, Fill(dev.peers, i, ip, length, cap).next)
    decreases |dev.peers| - i
  {
    hide HeadSize, IpSize, IpsSize;
    if i < |dev.peers| {
      PutFits(dev, dev.peers[i], ip, length, cap);
      var r := PutPeer(dev.peers[i], ip, length, cap);
      if r.Wholly? {
        FilledFits(dev, i + 1, None, r.length, cap);
      }
    }
  }

  lemma MessageFits(dev: WgDevice, cap: nat, c: Cursor)
    requires ValidCursor(dev.peers, c) && !c.Done? && FitsBefore(dev, cap, c)
    ensures FitsBefore(dev, cap, NextMessage(dev, cap, c).1)
  {
    hide HeadSize, IpSize, IpsSize;
    var length := Base(dev) + if c.Start? then DeviceSize(dev.attrs) else 0;
    if dev.peers != [] {
      FilledFits(dev, PeerOf(c), IpOf(c), length + NEST, cap);
    }
  }

  lemma {:induction false} SentFits(dev: WgDevice, cap: nat, n: nat)
    ensures FitsBefore(dev, cap, After(dev, cap, n).1)
  {
    hide HeadSize, IpSize, IpsSize;
    if n > 0 {
      SentFits(dev, cap, n - 1);
      var c := After(dev, cap, n - 1).1;
      if !c.Done? {
        MessageFits(dev, cap, c);
      }
    }
  }

  // ---------------------------------------------------------------- progress

  function PeersLeft(dev: WgDevice, c: Cursor): nat
    requires ValidCursor(dev.peers, c)
  {
    match c
    case Start => |dev.peers| + 1
    case At(i, _) => |dev.peers| - i
    case Done => 0
  }

  function HeadsLeft(c: Cursor): nat {
    if c.At? && c.ip.None? then 1 else 0
  }

  function IpsLeft(dev: WgDevice, c: Cursor): nat
    requires ValidCursor(dev.peers, c)
  {
    if c.At? && c.ip.Some? then |dev.peers[c.peer].ips| - c.ip.value else 0
  }

  lemma {:induction false} FillAdvances(peers: seq<WgPeer>, i: nat, length: nat, cap: nat)
    requires i <= |peers|
    ensures var c := Fill(peers, i, None, length, cap).next;
            c.Done? || c.peer >= i
    decreases |peers| - i
  {
    hide HeadSize, IpSize, IpsSize;
    if i < |peers| {
      var r := PutPeer(peers[i], None, length, cap);
      if r.Wholly? {
        FillAdvances(peers, i + 1, r.length, cap);
      }
    }
  }

  /** Into a message of its own goes at least the head of a peer, or one more of its allowed IPs. */
  lemma PutAdvances(dev: WgDevice, cap: nat, p: WgPeer, ip: Option<nat>)
    requires (ip.Some? ==> ip.value < |p.ips|) && PeerFits(dev, cap, p)
    ensures var r := PutPeer(p, ip, Base(dev) + NEST, cap);
            !r.NoRoom? && (r.Partly? && ip.Some? ==> r.ip > ip.value)
  {
    hide HeadSize, IpSize;
    var j := ip.GetOr(0);
    if ip.Some? {
      assert IpFits(dev, cap, p, p.ips[j]);
      assert p.ips[j..j] == [];
    }
  }

  /** If everything fits, each message gets further: past a peer, past a head, or past an IP. */
  lemma EachMessageAdvances(dev: WgDevice, cap: nat, c: Cursor)
    requires ValidCursor(dev.peers, c) && !c.Done? && AllFit(dev, cap)
    ensures var next := NextMessage(dev, cap, c).1;
            || PeersLeft(dev, next) < PeersLeft(dev, c)
            || (PeersLeft(dev, next) == PeersLeft(dev, c)
                && (HeadsLeft(next) < HeadsLeft(c)
                    || (HeadsLeft(next) == HeadsLeft(c) && IpsLeft(dev, next) < IpsLeft(dev, c))))
  {
    hide HeadSize, IpSize, IpsSize;
    if c.At? {
      PutAdvances(dev, cap, dev.peers[c.peer], c.ip);
      var r := PutPeer(dev.peers[c.peer], c.ip, Base(dev) + NEST, cap);
      if r.Wholly? {
        FillAdvances(dev.peers, c.peer + 1, r.length, cap);
      }
    }
  }

  lemma {:induction false} Completes(dev: WgDevice, cap: nat, n: nat)
    requires AllFit(dev, cap)
    ensures Finishes(dev, cap)
    decreases PeersLeft(dev, After(dev, cap, n).1), HeadsLeft(After(dev, cap, n).1), IpsLeft(dev, After(dev, cap, n).1)
  {
    hide HeadSize, IpSize, IpsSize;
    var c := After(dev, cap, n).1;
    if c.Done? {
      assert IsDone(dev, cap, n);
    } else {
      EachMessageAdvances(dev, cap, c);
      Completes(dev, cap, n + 1);
    }
  }

  /** The exchange comes to an end exactly when every head, and every allowed IP in a later piece,
      fits into a message of its own; otherwise the same message is prepared for ever. */
  lemma FinishesExactlyWhen(dev: WgDevice, cap: nat)
    ensures Finishes(dev, cap) <==> AllFit(dev, cap)
  {
    if AllFit(dev, cap) {
      Completes(dev, cap, 0);
    }
    if Finishes(dev, cap) {
      var n: nat :| IsDone(dev, cap, n);
      SentFits(dev, cap, n);
    }
  }

  /** A page is always enough, the name being shorter than `IFNAMSIZ`. */
  lemma PageIsEnough(dev: WgDevice)
    requires |dev.name| < 16
    ensures Finishes(dev, 4096)
  {
    FinishesExactlyWhen(dev, 4096);
    forall i, j | 0 <= i < |dev.peers| && 0 <= j < |dev.peers[i].ips|
      ensures IpFits(dev, 4096, dev.peers[i], dev.peers[i].ips[j])
    {
      HeadSizeBound(Head(dev.peers[i], true));
      IpSizeBound(dev.peers[i].ips[j]);
    }
    forall i | 0 <= i < |dev.peers|
      ensures HeadFits(dev, 4096, dev.peers[i])
    {
      HeadSizeBound(Head(dev.peers[i], false));
    }
  }

  // ---------------------------------------------------------------- what has been sent

  function Pieces(ms: seq<Message>): seq<WgPeer> {
    if ms == [] then [] else Pieces(ms[..|ms| - 1]) + ms[|ms| - 1].peers
  }

  /** A later piece repeats the key and the removing flag, and has no other attribute: the replacing
      flag, given again, would drop the allowed IPs of the earlier pieces. */
  predicate IsLaterPiece(f: WgPeer, p: WgPeer) {
    f == WgPeer(p.key, p.removeMe, false, None, NoEndpoint, None, f.ips) && f.ips != []
  }

  /** The pieces, read from the first to the last, make up the peers: each piece begins a new peer
      with all its attributes or is a later piece and adds allowed IPs to the last one. */
  predicate Rebuilds(pieces: seq<WgPeer>, peers: seq<WgPeer>)
    decreases |pieces|
  {
    if pieces == [] then peers == []
    else
      var f := pieces[|pieces| - 1];
      var init := pieces[..|pieces| - 1];
      && peers != []
      && var p := peers[|peers| - 1];
         || (p == f && Rebuilds(init, peers[..|peers| - 1]))
         || (IsLaterPiece(f, p) && |f.ips| <= |p.ips| && p.ips[|p.ips| - |f.ips|..] == f.ips
             && Rebuilds(init, peers[..|peers| - 1] + [p.(ips := p.ips[..|p.ips| - |f.ips|])]))
  }

  /** The part of the configuration that lies before a cursor. */
  function Before(peers: seq<WgPeer>, c: Cursor): seq<WgPeer>
    requires ValidCursor(peers, c)
  {
    match c
    case Start => []
    case Done => peers
    case At(i, ip) => peers[..i] + (if ip.Some? then [peers[i].(ips := peers[i].ips[..ip.value])] else [])
  }

  lemma NewPiece(pieces: seq<WgPeer>, peers: seq<WgPeer>, f: WgPeer)
    requires Rebuilds(pieces, peers)
    ensures Rebuilds(pieces + [f], peers + [f])
  {
    assert (pieces + [f])[..|pieces|] == pieces && (peers + [f])[..|peers|] == peers;
  }

  lemma LaterPiece(pieces: seq<WgPeer>, init: seq<WgPeer>, p: WgPeer, j: nat, k: nat)
    requires j < k <= |p.ips| && Rebuilds(pieces, init + [p.(ips := p.ips[..j])])
    ensures Rebuilds(pieces + [WgPeer(p.key, p.removeMe, false, None, NoEndpoint, None, p.ips[j..k])],
                     init + [p.(ips := p.ips[..k])])
  {
    var f := WgPeer(p.key, p.removeMe, false, None, NoEndpoint, None, p.ips[j..k]);
    var q := p.(ips := p.ips[..k]);
    var peers := init + [q];
    assert (pieces + [f])[..|pieces|] == pieces;
    assert peers[..|peers| - 1] == init && peers[|peers| - 1] == q;
    assert q.ips[|q.ips| - |f.ips|..] == f.ips;
    assert q.(ips := q.ips[..|q.ips| - |f.ips|]) == p.(ips := p.ips[..j]);
  }

  /** What one peer adds. Later pieces come only at the start of a message; they are never empty
      because one allowed IP fits. */
  lemma PutRebuilds(dev: WgDevice, cap: nat, init: seq<WgPeer>, p: WgPeer, ip: Option<nat>, length: nat,
                    sent: seq<WgPeer>)
    requires (ip.Some? ==> ip.value < |p.ips|) && PeerFits(dev, cap, p)
    requires ip.Some? ==> length == Base(dev) + NEST
    requires Rebuilds(sent, if ip.Some? then init + [p.(ips := p.ips[..ip.value])] else init)
    ensures var r := PutPeer(p, ip, length, cap);
            && (r.Partly? ==> Rebuilds(sent + [r.piece], init + [p.(ips := p.ips[..r.ip])]))
            && (r.Wholly? ==> Rebuilds(sent + [r.piece], init + [p]))
  {
    hide HeadSize, IpSize, IpsSize, Rebuilds, PeerFits;
    var r := PutPeer(p, ip, length, cap);
    if !r.NoRoom? {
      var k := if r.Partly? then r.ip else |p.ips|;
      assert k == |p.ips| ==> p.ips[..k] == p.ips;
      if ip.Some? {
        PutAdvances(dev, cap, p, ip);
        LaterPiece(sent, init, p, ip.value, k);
      } else {
        assert p.ips[0..k] == p.ips[..k];
        assert r.piece == p.(ips := p.ips[..k]);
        NewPiece(sent, init, r.piece);
      }
    }
  }

  lemma {:induction false} FillRebuilds(dev: WgDevice, i: nat, ip: Option<nat>, length: nat, cap: nat,
                                        sent: seq<WgPeer>)
    requires i <= |dev.peers| && (ip.Some? ==> i < |dev.peers| && ip.value < |dev.peers[i].ips|)
    requires AllFit(dev, cap) && (ip.Some? ==> length == Base(dev) + NEST)
    requires Rebuilds(sent, if ip.Some? then dev.peers[..i] + [dev.peers[i].(ips := dev.peers[i].ips[..ip.value])]
                            else dev.peers[..i])
    ensures var f := Fill(dev.peers, i, ip, length, cap);
            Rebuilds(sent + f.pieces, Before(dev.peers, f.next))
    decreases |dev.peers| - i
  {
    hide HeadSize, IpSize, IpsSize, Rebuilds, PutPeer;
    var f := Fill(dev.peers, i, ip, length, cap);
    if i == |dev.peers| {
      assert sent + f.pieces == sent && dev.peers[..i] == dev.peers;
    } else {
      PutRebuilds(dev, cap, dev.peers[..i], dev.peers[i], ip, length, sent);
      match PutPeer(dev.peers[i], ip, length, cap)
      case NoRoom =>
        assert sent + f.pieces == sent && dev.peers[..i] + [] == dev.peers[..i];
      case Partly(_, _, _) =>
      case Wholly(piece, after) =>
        assert dev.peers[..i + 1] == dev.peers[..i] + [dev.peers[i]];
        FillRebuilds(dev, i + 1, None, after, cap, sent + [piece]);
        OnePieceFirst(sent, piece, Fill(dev.peers, i + 1, None, after, cap).pieces);
    }
  }

  lemma OnePieceFirst(sent: seq<WgPeer>, piece: WgPeer, rest: seq<WgPeer>)
    ensures sent + ([piece] + rest) == sent + [piece] + rest
  {
  }

  lemma MessageRebuilds(dev: WgDevice, cap: nat, c: Cursor, sent: seq<WgPeer>)
    requires ValidCursor(dev.peers, c) && !c.Done? && AllFit(dev, cap)
    requires Rebuilds(sent, Before(dev.peers, c))
    ensures var (m, next) := NextMessage(dev, cap, c);
            Rebuilds(sent + m.peers, Before(dev.peers, next))
  {
    hide HeadSize, IpSize, IpsSize, Rebuilds, Fill;
    var length := Base(dev) + NEST + if c.Start? then DeviceSize(dev.attrs) else 0;
    if dev.peers == [] {
      assert sent + [] == sent;
    } else {
      assert c.At? && c.ip.None? ==> Before(dev.peers, c) == dev.peers[..c.peer];
      FillRebuilds(dev, PeerOf(c), IpOf(c), length, cap, sent);
    }
  }

  lemma PiecesOfMore(ms: seq<Message>, m: Message)
    ensures Pieces(ms + [m]) == Pieces(ms) + m.peers
  {
    assert (ms + [m])[..|ms|] == ms;
  }

  lemma NothingSent(dev: WgDevice)
    ensures Rebuilds(Pieces([]), Before(dev.peers, Start))
  {
  }

  lemma {:induction false} SentRebuilds(dev: WgDevice, cap: nat, n: nat)
    requires AllFit(dev, cap)
    ensures var (ms, c) := After(dev, cap, n);
            Rebuilds(Pieces(ms), Before(dev.peers, c))
  {
    hide NextMessage, Rebuilds, Before, Pieces;
    if n == 0 {
      NothingSent(dev);
    } else {
      SentRebuilds(dev, cap, n - 1);
      var (sent, c) := After(dev, cap, n - 1);
      if !c.Done? {
        MessageRebuilds(dev, cap, c, Pieces(sent));
        PiecesOfMore(sent, NextMessage(dev, cap, c).0);
      }
    }
  }

  /** When the exchange ends, the pieces sent make up exactly the peers of the device: every
      attribute and every allowed IP once, in order, the replacing flag in first pieces only. */
  lemma ConfigurationArrives(dev: WgDevice, cap: nat, n: nat)
    requires IsDone(dev, cap, n)
    ensures Rebuilds(Pieces(After(dev, cap, n).0), dev.peers)
  {
    assert Finishes(dev, cap);
    FinishesExactlyWhen(dev, cap);
    SentRebuilds(dev, cap, n);
  }

  lemma MessageAttributes(dev: WgDevice, cap: nat, c: Cursor)
    requires ValidCursor(dev.peers, c) && !c.Done?
    requires Base(dev) + DeviceSize(dev.attrs) + NEST <= cap
    ensures var m := NextMessage(dev, cap, c).0;
            m.attrs == (if c.Start? then Some(dev.attrs) else None) && m.length <= cap
  {
  }

  /** The attributes of the device itself, with its replacing flag, go into the first message and
      no other; and no message outgrows the buffer if the first one can hold them. */
  lemma {:induction false} DeviceAttributesOnce(dev: WgDevice, cap: nat, n: nat, k: nat)
    requires Base(dev) + DeviceSize(dev.attrs) + NEST <= cap
    requires k < |After(dev, cap, n).0|
    ensures var m := After(dev, cap, n).0[k];
            m.attrs == (if k == 0 then Some(dev.attrs) else None) && m.length <= cap
  {
    hide NextMessage;
    var (sent, c) := After(dev, cap, n - 1);
    SentCount(dev, cap, n - 1);
    if k < |sent| {
      DeviceAttributesOnce(dev, cap, n - 1, k);
    } else {
      MessageAttributes(dev, cap, c);
    }
  }

  lemma {:induction false} SentCount(dev: WgDevice, cap: nat, n: nat)
    ensures var (sent, c) := After(dev, cap, n);
            (|sent| == 0 <==> n == 0) && (!c.Done? ==> |sent| == n)
  {
    hide NextMessage;
    if n > 0 {
      SentCount(dev, cap, n - 1);
    }
  }

  // ---------------------------------------------------------------- the sending loops

  /** A run of `mnl_attr_put_check`s; the first that finds no room ends it. */
  method PutAttrs(sizes: seq<nat>, length: nat, cap: nat) returns (ok: bool, after: nat)
    requires length <= cap
    ensures ok <==> length + AttrsSize(sizes) <= cap
    ensures ok ==> after == length + AttrsSize(sizes)
  {
    after := length;
    for i := 0 to |sizes|
      invariant after == length + AttrsSize(sizes[..i]) <= cap
    {
      assert sizes[..i + 1][..i] == sizes[..i];
      if after + Attr(sizes[i]) > cap {
        AttrsSizeJoined(sizes[..i + 1], sizes[i + 1..]);
        assert sizes == sizes[..i + 1] + sizes[i + 1..];
        return false, after;
      }
      after := after + Attr(sizes[i]);
    }
    assert sizes[..|sizes|] == sizes;
    ok := true;
  }

  /** The loop over the allowed IPs of a peer: one that does not fit is cancelled. */
  method PutIps(ips: seq<AllowedIp>, j: nat, length: nat, cap: nat) returns (k: nat, after: nat)
    requires j <= |ips| && length <= cap
    ensures k == TakeIps(ips, j, length, cap) && after == length + IpsSize(ips[j..k])
  {
    hide IpAttrs, AttrsSize, IpsSize;
    k, after := j, length;
    NoIps();
    assert ips[j..j] == [];
    while k < |ips|
      invariant j <= k <= |ips| && after == length + IpsSize(ips[j..k]) <= cap
      invariant TakeIps(ips, j, length, cap) == TakeIps(ips, k, after, cap)
    {
      if after + NEST > cap {
        break;
      }
      var ok, next := PutAttrs(IpAttrs(ips[k]), after + NEST, cap);
      if !ok {
        break;
      }
      OneMoreIp(ips[j..k], ips[k]);
      assert ips[j..k + 1] == ips[j..k] + [ips[k]];
      k, after := k + 1, next;
    }
  }

  lemma NoIps()
    ensures IpsSize([]) == 0
  {
  }

  lemma OneMoreIp(ips: seq<AllowedIp>, ip: AllowedIp)
    ensures IpsSize(ips + [ip]) == IpsSize(ips) + IpSize(ip)
  {
    assert (ips + [ip])[..|ips|] == ips;
  }

  /** One turn of the loop over the peers. */
  method PutOnePeer(p: WgPeer, ip: Option<nat>, length: nat, cap: nat) returns (r: Put)
    requires ip.Some? ==> ip.value < |p.ips|
    ensures r == PutPeer(p, ip, length, cap)
  {
    hide HeadAttrs, IpAttrs, AttrsSize, TakeIps, IpsSize, Head;
    if length + NEST > cap {
      return NoRoom;
    }
    var head := Head(p, ip.Some?);
    var ok, afterHead := PutAttrs(HeadAttrs(head), length + NEST, cap);
    if !ok {
      return NoRoom;
    }
    if |p.ips| == 0 {
      return Wholly(head, afterHead);
    }
    var j := if ip.Some? then ip.value else 0;
    if afterHead + NEST > cap {
      return Partly(head, j, afterHead);
    }
    var k, after := PutIps(p.ips, j, afterHead + NEST, cap);
    var piece := head.(ips := p.ips[j..k]);
    return if k < |p.ips| then Partly(piece, k, after) else Wholly(piece, after);
  }

  /** One message. */
  method PrepareMessage(dev: WgDevice, cap: nat, c: Cursor) returns (m: Message, next: Cursor)
    requires ValidCursor(dev.peers, c) && !c.Done?
    ensures (m, next) == NextMessage(dev, cap, c)
  {
    hide PutPeer, Fill;
    var attrs: Option<DeviceAttrs>, length: nat := None, Base(dev);
    if c.Start? {
      attrs, length := Some(dev.attrs), length + DeviceSize(dev.attrs);
    }
    if |dev.peers| == 0 {
      return Message(attrs, [], length), Done;
    }
    length := length + NEST;
    var i: nat, ip: Option<nat>, pieces := PeerOf(c), IpOf(c), [];
    ghost var whole := Fill(dev.peers, i, ip, length, cap);
    while i < |dev.peers|
      invariant i <= |dev.peers| && (ip.Some? ==> i < |dev.peers| && ip.value < |dev.peers[i].ips|)
      invariant var f := Fill(dev.peers, i, ip, length, cap); whole == f.(pieces := pieces + f.pieces)
      decreases |dev.peers| - i
    {
      FillMore(dev.peers, pieces, i, ip, length, cap);
      var r := PutOnePeer(dev.peers[i], ip, length, cap);
      match r {
        case NoRoom =>
          return Message(attrs, pieces, length), At(i, ip);
        case Partly(piece, k, after) =>
          return Message(attrs, pieces + [piece], after), At(i, Some(k));
        case Wholly(piece, after) =>
          i, ip, pieces, length := i + 1, None, pieces + [piece], after;
      }
    }
    FillNoMore(dev.peers, pieces, ip, length, cap);
    return Message(attrs, pieces, length), Done;
  }

  /** One turn of the loop, after some pieces. */
  lemma FillMore(peers: seq<WgPeer>, pieces: seq<WgPeer>, i: nat, ip: Option<nat>, length: nat, cap: nat)
    requires i < |peers| && (ip.Some? ==> ip.value < |peers[i].ips|)
    ensures var f := Fill(peers, i, ip, length, cap);
            var whole := f.(pieces := pieces + f.pieces);
            match PutPeer(peers[i], ip, length, cap)
            case NoRoom => whole == Filled(pieces, At(i, ip), length)
            case Partly(piece, k, after) => whole == Filled(pieces + [piece], At(i, Some(k)), after)
            case Wholly(piece, after) =>
              var rest := Fill(peers, i + 1, None, after, cap);
              whole == rest.(pieces := pieces + [piece] + rest.pieces)
  {
    hide PutPeer;
    var r := PutPeer(peers[i], ip, length, cap);
    assert pieces + [] == pieces;
    if r.Wholly? {
      OnePieceFirst(pieces, r.piece, Fill(peers, i + 1, None, r.length, cap).pieces);
    }
  }

  lemma FillNoMore(peers: seq<WgPeer>, pieces: seq<WgPeer>, ip: Option<nat>, length: nat, cap: nat)
    requires ip.None?
    ensures var f := Fill(peers, |peers|, ip, length, cap);
            f.(pieces := pieces + f.pieces) == Filled(pieces, Done, length)
  {
    assert pieces + [] == pieces;
  }

  /** `kernel_set_device`: every message that is sent. It ends exactly for devices that fit. */
  method SetDevice(dev: WgDevice, cap: nat) returns (messages: seq<Message>)
    requires AllFit(dev, cap)
    ensures exists n: nat :: IsDone(dev, cap, n) && messages == After(dev, cap, n).0
    ensures Rebuilds(Pieces(messages), dev.peers)
  {
    hide NextMessage, Rebuilds, Pieces, AllFit;
    messages := [];
    var c := Start;
    ghost var n := 0;
    while !c.Done?
      invariant After(dev, cap, n) == (messages, c)
      decreases PeersLeft(dev, c), HeadsLeft(c), IpsLeft(dev, c)
    {
      EachMessageAdvances(dev, cap, c);
      var m, next := PrepareMessage(dev, cap, c);
      messages, c, n := messages + [m], next, n + 1;
    }
    assert IsDone(dev, cap, n);
    ConfigurationArrives(dev, cap, n);
  }

  // ---------------------------------------------------------------- coalescing

  /** One more peer of a dump: its allowed IPs join the last peer if the keys are the same. */
  function Join(peers: seq<WgPeer>, f: WgPeer): seq<WgPeer> {
    if peers != [] && peers[|peers| - 1].key == f.key then
      var p := peers[|peers| - 1];
      peers[..|peers| - 1] + [p.(ips := p.ips + f.ips)]
    else peers + [f]
  }

  function Coalesce(pieces: seq<WgPeer>): seq<WgPeer> {
    if pieces == [] then [] else Join(Coalesce(pieces[..|pieces| - 1]), pieces[|pieces| - 1])
  }

  predicate AdjacentKeysDiffer(peers: seq<WgPeer>) {
    forall i :: 0 < i < |peers| ==> peers[i - 1].key != peers[i].key
  }

  lemma JoinKeepsKeysDifferent(peers: seq<WgPeer>, f: WgPeer)
    requires AdjacentKeysDiffer(peers)
    ensures AdjacentKeysDiffer(Join(peers, f))
    ensures Join(peers, f) != [] && Join(peers, f)[|Join(peers, f)| - 1].key == f.key
  {
  }

  lemma {:induction false} CoalescedKeysDiffer(pieces: seq<WgPeer>)
    ensures AdjacentKeysDiffer(Coalesce(pieces))
    ensures pieces != [] ==>
              Coalesce(pieces) != [] && Coalesce(pieces)[|Coalesce(pieces)| - 1].key == pieces[|pieces| - 1].key
  {
    hide AdjacentKeysDiffer, Join;
    if pieces != [] {
      CoalescedKeysDiffer(pieces[..|pieces| - 1]);
      JoinKeepsKeysDifferent(Coalesce(pieces[..|pieces| - 1]), pieces[|pieces| - 1]);
    } else {
      NoKeys();
    }
  }

  lemma NoKeys()
    ensures AdjacentKeysDiffer([])
  {
  }

  lemma JoinOfNew(peers: seq<WgPeer>)
    requires peers != [] && AdjacentKeysDiffer(peers)
    ensures Join(peers[..|peers| - 1], peers[|peers| - 1]) == peers && AdjacentKeysDiffer(peers[..|peers| - 1])
  {
    var n := |peers| - 1;
    assert n > 0 ==> peers[n - 1].key != peers[n].key;
    assert peers[..n] + [peers[n]] == peers;
  }

  lemma JoinOfLater(peers: seq<WgPeer>, f: WgPeer)
    requires peers != [] && AdjacentKeysDiffer(peers)
    requires var p := peers[|peers| - 1];
             f.key == p.key && |f.ips| <= |p.ips| && p.ips[|p.ips| - |f.ips|..] == f.ips
    ensures var p := peers[|peers| - 1];
            var before := peers[..|peers| - 1] + [p.(ips := p.ips[..|p.ips| - |f.ips|])];
            Join(before, f) == peers && AdjacentKeysDiffer(before)
  {
    var n := |peers| - 1;
    var p := peers[n];
    var q := p.(ips := p.ips[..|p.ips| - |f.ips|]);
    var before := peers[..n] + [q];
    forall i | 0 < i < |before|
      ensures before[i - 1].key != before[i].key
    {
      assert peers[i - 1].key != peers[i].key;
    }
    assert before[..n] == peers[..n] && q.(ips := q.ips + f.ips) == p;
    assert peers[..n] + [p] == peers;
  }

  lemma {:induction false} CoalesceOfRebuilt(pieces: seq<WgPeer>, peers: seq<WgPeer>)
    requires Rebuilds(pieces, peers) && AdjacentKeysDiffer(peers)
    ensures Coalesce(pieces) == peers
    decreases |pieces|
  {
    hide AdjacentKeysDiffer, Join;
    if pieces != [] {
      var f := pieces[|pieces| - 1];
      var init := pieces[..|pieces| - 1];
      var p := peers[|peers| - 1];
      var before := peers[..|peers| - 1];
      if p == f && Rebuilds(init, before) {
        JoinOfNew(peers);
        CoalesceOfRebuilt(init, before);
      } else {
        JoinOfLater(peers, f);
        CoalesceOfRebuilt(init, before + [p.(ips := p.ips[..|p.ips| - |f.ips|])]);
      }
    }
  }

  /** A peer in the list that is coalesced, with whether its pointer to the last allowed IP is set;
      the pointer to the first is set when there are any. */
  datatype Node = Node(peer: WgPeer, last: bool)

  function Parsed(f: WgPeer): Node {
    Node(f, f.ips != [])
  }

  /** The second node hung onto the first, if that does not follow a missing pointer. */
  function Merge(n: Node, next: Node): Option<Node> {
    if n.peer.ips == [] then Some(Node(n.peer.(ips := next.peer.ips), next.last))
    else if !n.last then None
    else Some(Node(n.peer.(ips := n.peer.ips + next.peer.ips), next.last))
  }

  /** The nodes that the pieces become, unless a missing pointer is followed. */
  function Nodes(pieces: seq<WgPeer>): Option<seq<Node>> {
    if pieces == [] then Some([])
    else
      var before := Nodes(pieces[..|pieces| - 1]);
      var next := Parsed(pieces[|pieces| - 1]);
      if before.None? then None
      else NextNode(before.value, next)
  }

  function NextNode(nodes: seq<Node>, next: Node): Option<seq<Node>> {
    if nodes == [] || nodes[|nodes| - 1].peer.key != next.peer.key then Some(nodes + [next])
    else
      var m := Merge(nodes[|nodes| - 1], next);
      if m.None? then None else Some(nodes[..|nodes| - 1] + [m.value])
  }

  ghost predicate Means(nodes: seq<Node>, peers: seq<WgPeer>) {
    |nodes| == |peers| && forall i :: 0 <= i < |nodes| ==> nodes[i].peer == peers[i]
  }

  /** A list of allowed IPs that was extended by an empty one. */
  predicate ExtendedByNothing(pieces: seq<WgPeer>, j: nat) {
    && 0 < j < |pieces|
    && pieces[j - 1].key == pieces[j].key
    && pieces[j].ips == []
    && Coalesce(pieces[..j]) != [] && Coalesce(pieces[..j])[|Coalesce(pieces[..j])| - 1].ips != []
  }

  /** ... and is to be extended again: the last pointer that is followed then is missing. */
  predicate Dereferences(pieces: seq<WgPeer>, j: nat) {
    ExtendedByNothing(pieces, j) && j + 1 < |pieces| && pieces[j].key == pieces[j + 1].key
  }

  lemma NodeStep(nodes: seq<Node>, peers: seq<WgPeer>, f: WgPeer)
    requires Means(nodes, peers)
    ensures var next := NextNode(nodes, Parsed(f));
            && (next.Some? ==> Means(next.value, Join(peers, f)))
            && (next.None? <==> nodes != [] && nodes[|nodes| - 1].peer.key == f.key
                                && nodes[|nodes| - 1].peer.ips != [] && !nodes[|nodes| - 1].last)
            && (next.Some? ==>
                  next.value != [] && next.value[|next.value| - 1].last == (f.ips != []))
  {
    if nodes != [] && nodes[|nodes| - 1].peer.key == f.key {
      var p := peers[|peers| - 1];
      assert p.ips == [] ==> p.ips + f.ips == f.ips;
    }
  }

  lemma EmptyLastPiece(pieces: seq<WgPeer>)
    requires pieces != []
    ensures var last, peers := |pieces| - 1, Coalesce(pieces);
            && peers != []
            && (ExtendedByNothing(pieces, last) <==> pieces[last].ips == [] && peers[|peers| - 1].ips != [])
  {
    var last := |pieces| - 1;
    CoalescedKeysDiffer(pieces);
    CoalescedKeysDiffer(pieces[..last]);
  }

  lemma EarlierDereferences(pieces: seq<WgPeer>, j: nat)
    requires j < |pieces| - 1
    ensures Dereferences(pieces, j) <==>
            if j < |pieces| - 2 then Dereferences(pieces[..|pieces| - 1], j)
            else ExtendedByNothing(pieces[..|pieces| - 1], j) && pieces[j].key == pieces[j + 1].key
  {
    var init := pieces[..|pieces| - 1];
    assert init[..j] == pieces[..j];
  }

  /** The nodes are the coalesced peers; a missing pointer is followed exactly when a list of
      allowed IPs was extended by an empty one and is extended again. */
  lemma {:induction false} NodesAreCoalesced(pieces: seq<WgPeer>)
    ensures var nodes := Nodes(pieces);
            && (nodes.Some? <==> forall j :: 0 <= j < |pieces| ==> !Dereferences(pieces, j))
            && (nodes.Some? ==> Means(nodes.value, Coalesce(pieces)))
            && (nodes.Some? && pieces != [] ==>
                  nodes.value != [] && nodes.value[|nodes.value| - 1].last == (pieces[|pieces| - 1].ips != []))
  {
    hide Join, NextNode, Dereferences, ExtendedByNothing;
    if pieces != [] {
      var last := |pieces| - 1;
      var init := pieces[..last];
      NodesAreCoalesced(init);
      LastDereferencesNothing(pieces);
      if init == [] {
        NodeStep([], [], pieces[last]);
        assert Coalesce(init) == [];
      } else {
        LastDereferencesNothing(init);
        EmptyLastPiece(init);
        CoalescedKeysDiffer(init);
        if Nodes(init).Some? {
          NodeStep(Nodes(init).value, Coalesce(init), pieces[last]);
          forall j | 0 <= j < last
            ensures Dereferences(pieces, j) <==> j == last - 1 && Nodes(pieces).None?
          {
            EarlierDereferences(pieces, j);
          }
          assert Dereferences(pieces, last - 1) <==> Nodes(pieces).None?;
        } else {
          var j :| 0 <= j < |init| && Dereferences(init, j);
          EarlierDereferences(pieces, j);
        }
      }
    }
  }

  /** It does happen: three pieces of one peer, the second of them without allowed IPs. */
  lemma EmptyPieceBetween(f: WgPeer)
    requires f.ips != []
    ensures var pieces := [f, f.(ips := []), f];
            Dereferences(pieces, 1) && Nodes(pieces).None?
  {
    var pieces := [f, f.(ips := []), f];
    assert pieces[..1] == [f] && [f][..0] == [];
    assert Coalesce(pieces[..1]) == [f];
    assert Dereferences(pieces, 1);
    NodesAreCoalesced(pieces);
  }

  lemma LastDereferencesNothing(pieces: seq<WgPeer>)
    requires pieces != []
    ensures !Dereferences(pieces, |pieces| - 1)
  {
  }

  /** The pieces of one exchange never lead to a missing pointer, whatever their order was split
      into, if no two neighbouring peers have the same key. */
  lemma LaterKey(f: WgPeer, p: WgPeer)
    ensures IsLaterPiece(f, p) ==> f.key == p.key && f.ips != []
  {
  }

  lemma {:induction false} SplittingIsSafe(pieces: seq<WgPeer>, peers: seq<WgPeer>, j: nat)
    requires Rebuilds(pieces, peers) && AdjacentKeysDiffer(peers)
    ensures !ExtendedByNothing(pieces, j)
    decreases |pieces|
  {
    if ExtendedByNothing(pieces, j) {
      hide AdjacentKeysDiffer, Join, IsLaterPiece;
      var f := pieces[|pieces| - 1];
      var init := pieces[..|pieces| - 1];
      var p := peers[|peers| - 1];
      var before := peers[..|peers| - 1];
      assert IsLaterPiece(f, p) ==> f.key == p.key && f.ips != [] by { LaterKey(f, p); }
      assert j < |init| ==> init[..j] == pieces[..j];
      if p == f && Rebuilds(init, before) {
        JoinOfNew(peers);
        SplittingIsSafe(init, before, j);
        CoalesceOfRebuilt(init, before);
        CoalescedKeysDiffer(init);
        NewKeyDiffers(peers);
      } else {
        JoinOfLater(peers, f);
        SplittingIsSafe(init, before + [p.(ips := p.ips[..|p.ips| - |f.ips|])], j);
      }
    }
  }

  lemma NewKeyDiffers(peers: seq<WgPeer>)
    requires |peers| > 1 && AdjacentKeysDiffer(peers)
    ensures peers[|peers| - 2].key != peers[|peers| - 1].key
  {
  }

  /** Splitting and coalescing are inverse to each other: the pieces of all messages coalesce to the
      peers that were sent exactly when no two neighbours among these have the same key, and then
      no missing pointer is followed. */
  lemma CoalesceUndoesSplitting(dev: WgDevice, cap: nat, n: nat)
    requires IsDone(dev, cap, n)
    ensures var pieces := Pieces(After(dev, cap, n).0);
            && (Coalesce(pieces) == dev.peers <==> AdjacentKeysDiffer(dev.peers))
            && (AdjacentKeysDiffer(dev.peers) ==> forall j :: 0 <= j < |pieces| ==> !Dereferences(pieces, j))
  {
    ConfigurationArrives(dev, cap, n);
    var pieces := Pieces(After(dev, cap, n).0);
    CoalescedKeysDiffer(pieces);
    if AdjacentKeysDiffer(dev.peers) {
      CoalesceOfRebuilt(pieces, dev.peers);
      forall j | 0 <= j < |pieces|
        ensures !Dereferences(pieces, j)
      {
        SplittingIsSafe(pieces, dev.peers, j);
      }
    }
  }

  /** One turn of the loop: the next node is left for later, or hung onto the current one. */
  lemma LoopStep(pieces: seq<WgPeer>, n: nat, list: seq<Node>, i: nat)
    requires n < |pieces| && i + 1 < |list|
    requires Nodes(pieces[..n]) == Some(list[..i + 1]) && list[i + 1] == Parsed(pieces[n])
    ensures if list[i].peer.key != list[i + 1].peer.key then Nodes(pieces[..n + 1]) == Some(list[..i + 2])
            else
              var m := Merge(list[i], list[i + 1]);
              if m.None? then Nodes(pieces).None? else Nodes(pieces[..n + 1]) == Some(list[..i] + [m.value])
  {
    hide Nodes, Merge, Parsed;
    NodesOfMore(pieces, n);
    var nodes, next := list[..i + 1], list[i + 1];
    assert nodes[|nodes| - 1] == list[i] && nodes[..|nodes| - 1] == list[..i];
    assert list[..i + 2] == nodes + [next];
    if NextNode(nodes, next).None? {
      NodesOfFewer(pieces, n + 1);
    }
  }

  lemma NodesOfMore(pieces: seq<WgPeer>, n: nat)
    requires n < |pieces|
    ensures Nodes(pieces[..n + 1]) ==
            (if Nodes(pieces[..n]).None? then None else NextNode(Nodes(pieces[..n]).value, Parsed(pieces[n])))
  {
    hide NextNode;
    assert pieces[..n + 1][..n] == pieces[..n];
  }

  lemma {:induction false} NodesOfFewer(pieces: seq<WgPeer>, n: nat)
    requires n <= |pieces| && Nodes(pieces[..n]).None?
    ensures Nodes(pieces).None?
    decreases |pieces| - n
  {
    if n < |pieces| {
      NodesOfMore(pieces, n);
      NodesOfFewer(pieces, n + 1);
    } else {
      assert pieces[..n] == pieces;
    }
  }

  lemma OneNode(pieces: seq<WgPeer>)
    requires pieces != []
    ensures Nodes(pieces[..1]) == Some([Parsed(pieces[0])])
  {
    assert pieces[..0] == [] && [] + [Parsed(pieces[0])] == [Parsed(pieces[0])];
    NodesOfMore(pieces, 0);
  }

  lemma Spliced(before: seq<Node>, i: nat, peer: Node, list: seq<Node>)
    requires i + 1 < |before| && list == before[..i] + [peer] + before[i + 2..]
    ensures |list| == |before| - 1 && list[..i + 1] == before[..i] + [peer]
    ensures forall k :: i < k < |list| ==> list[k] == before[k + 1]
  {
  }

  /** `coalesce_peers` on a list of peers that is not empty. */
  method CoalesceNodes(pieces: seq<WgPeer>) returns (r: Option<seq<Node>>)
    requires pieces != []
    ensures r == Nodes(pieces)
  {
    hide Nodes;
    var list := seq(|pieces|, i requires 0 <= i < |pieces| => Parsed(pieces[i]));
    var i := 0;
    ghost var n := 1;
    OneNode(pieces);
    assert list[..1] == [Parsed(pieces[0])];
    while i + 1 < |list|
      invariant 0 < n <= |pieces| && i < |list| && |list| - i - 1 == |pieces| - n
      invariant forall k :: i < k < |list| ==> list[k] == Parsed(pieces[n + (k - i - 1)])
      invariant Nodes(pieces[..n]) == Some(list[..i + 1])
      decreases |pieces| - n
    {
      var peer, next := list[i], list[i + 1];
      LoopStep(pieces, n, list, i);
      if peer.peer.key != next.peer.key {
        i := i + 1;
      } else {
        if peer.peer.ips == [] {
          peer := Node(peer.peer.(ips := next.peer.ips), next.last);
        } else if !peer.last {
          return None;
        } else {
          peer := Node(peer.peer.(ips := peer.peer.ips + next.peer.ips), next.last);
        }
        ghost var before := list;
        list := list[..i] + [peer] + list[i + 2..];
        Spliced(before, i, peer, list);
      }
      n := n + 1;
    }
    assert pieces[..n] == pieces && list[..i + 1] == list;
    return Some(list);
  }

  /** `coalesce_peers`; false is a null dereference. */
  method CoalescePeers(pieces: seq<WgPeer>) returns (ok: bool, peers: seq<WgPeer>)
    ensures ok <==> forall j :: 0 <= j < |pieces| ==> !Dereferences(pieces, j)
    ensures ok ==> peers == Coalesce(pieces)
  {
    NodesAreCoalesced(pieces);
    if |pieces| == 0 {
      return true, [];
    }
    hide Dereferences, Coalesce, Nodes;
    var nodes := CoalesceNodes(pieces);
    if nodes.None? {
      return false, [];
    }
    ok, peers := true, seq(|nodes.value|, k requires 0 <= k < |nodes.value| => nodes.value[k].peer);
  }
}
