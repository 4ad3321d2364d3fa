/**
 The receiver of the netlink messages, as `uapi/linux/linux/wireguard.h` documents it: what a message
 sets is set, what it leaves out stays, the replacing flags clear first. Whatever the state of the
 interface, the messages that `Netlink.SetDevice` sends leave it as one message of any size would.
 */
module NetlinkReceiver {
  import opened Wrappers
  import opened ByteStrings
  import opened Netlink

  /** An address with its prefix length, whatever its flags. */
  datatype Route = Route(family: Family, addr: Bytes, cidr: byte)

  datatype Settings = Settings(psk: Option<Bytes>, endpoint: Endpoint, keepalive: Option<nat>)

  /** The device attributes, the peers, and which of them each route leads to. */
  datatype Interface = Interface(
    privateKey: Option<Bytes>,
    listenPort: Option<nat>,
    fwmark: Option<nat>,
    peers: map<Key, Settings>,
    routes: map<Route, Key>)

  function Given<T>(given: Option<T>, before: Option<T>): Option<T> {
    if given.Some? then given else before
  }

  function WithoutRoutesOf(routes: map<Route, Key>, k: Key): map<Route, Key> {
    map r | r in routes && routes[r] != k :: routes[r]
  }

  /** An allowed IP with the flag `WGALLOWEDIP_F_REMOVE_ME` is removed, any other one added. */
  function AddIp(routes: map<Route, Key>, k: Key, ip: AllowedIp): map<Route, Key> {
    var r := Route(ip.family, ip.addr, ip.cidr);
    if ip.flags % 2 == 0 then routes[r := k]
    else if r in routes && routes[r] == k then routes - {r}
    else routes
  }

  function AddIps(routes: map<Route, Key>, k: Key, ips: seq<AllowedIp>): map<Route, Key> {
    if ips == [] then routes else AddIp(AddIps(routes, k, ips[..|ips| - 1]), k, ips[|ips| - 1])
  }

  function SetPeer(i: Interface, f: WgPeer): Interface {
    if f.removeMe then i.(peers := i.peers - {f.key}, routes := WithoutRoutesOf(i.routes, f.key))
    else
      var was := if f.key in i.peers then i.peers[f.key] else Settings(None, NoEndpoint, None);
      var settings := Settings(Given(f.psk, was.psk), if f.endpoint.NoEndpoint? then was.endpoint else f.endpoint,
                           Given(f.keepalive, was.keepalive));
      var routes := if f.replaceIps then WithoutRoutesOf(i.routes, f.key) else i.routes;
      i.(peers := i.peers[f.key := settings], routes := AddIps(routes, f.key, f.ips))
  }

  function SetPeers(i: Interface, fs: seq<WgPeer>): Interface {
    if fs == [] then i else SetPeer(SetPeers(i, fs[..|fs| - 1]), fs[|fs| - 1])
  }

  function SetAttrs(i: Interface, a: DeviceAttrs): Interface {
    var device := i.(privateKey := Given(a.privateKey, i.privateKey), listenPort := Given(a.listenPort, i.listenPort),
                   fwmark := Given(a.fwmark, i.fwmark));
    if a.replacePeers then device.(peers := map[], routes := map[]) else device
  }

  function Receive(i: Interface, m: Message): Interface {
    SetPeers(if m.attrs.Some? then SetAttrs(i, m.attrs.value) else i, m.peers)
  }

  function ReceiveAll(i: Interface, ms: seq<Message>): Interface {
    if ms == [] then i else Receive(ReceiveAll(i, ms[..|ms| - 1]), ms[|ms| - 1])
  }

  // ---------------------------------------------------------------- splitting does not matter

  lemma {:induction false} AddMoreIps(routes: map<Route, Key>, k: Key, ips: seq<AllowedIp>, more: seq<AllowedIp>)
    ensures AddIps(routes, k, ips + more) == AddIps(AddIps(routes, k, ips), k, more)
  {
    if more == [] {
      assert ips + more == ips;
    } else {
      AddMoreIps(routes, k, ips, more[..|more| - 1]);
      assert (ips + more)[..|ips + more| - 1] == ips + more[..|more| - 1];
    }
  }

  /** A peer with some of its allowed IPs, and then the piece with the rest, is the whole peer. */
  lemma PieceCompletes(i: Interface, p: WgPeer, f: WgPeer)
    requires IsLaterPiece(f, p) && |f.ips| <= |p.ips| && p.ips[|p.ips| - |f.ips|..] == f.ips
    ensures SetPeer(SetPeer(i, p.(ips := p.ips[..|p.ips| - |f.ips|])), f) == SetPeer(i, p)
  {
    var first := p.ips[..|p.ips| - |f.ips|];
    assert p.ips == first + f.ips;
    var routes := if p.replaceIps then WithoutRoutesOf(i.routes, p.key) else i.routes;
    AddMoreIps(routes, p.key, first, f.ips);
  }

  lemma {:induction false} PiecesAreWhole(i: Interface, pieces: seq<WgPeer>, peers: seq<WgPeer>)
    requires Rebuilds(pieces, peers)
    ensures SetPeers(i, pieces) == SetPeers(i, peers)
    decreases |pieces|
  {
    if pieces != [] {
      hide SetPeer;
      var f, init := pieces[|pieces| - 1], pieces[..|pieces| - 1];
      var p, before := peers[|peers| - 1], peers[..|peers| - 1];
      if p == f && Rebuilds(init, before) {
        PiecesAreWhole(i, init, before);
      } else {
        var part := p.(ips := p.ips[..|p.ips| - |f.ips|]);
        PiecesAreWhole(i, init, before + [part]);
        assert (before + [part])[..|before|] == before;
        PieceCompletes(SetPeers(i, before), p, f);
      }
    }
  }

  lemma {:induction false} SetMorePeers(i: Interface, fs: seq<WgPeer>, more: seq<WgPeer>)
    ensures SetPeers(i, fs + more) == SetPeers(SetPeers(i, fs), more)
  {
    if more == [] {
      assert fs + more == fs;
    } else {
      SetMorePeers(i, fs, more[..|more| - 1]);
      assert (fs + more)[..|fs + more| - 1] == fs + more[..|more| - 1];
    }
  }

  /** The device attributes come with the first message and no other. */
  lemma AttrsFirst(dev: WgDevice, cap: nat, c: Cursor)
    requires ValidCursor(dev.peers, c) && !c.Done?
    ensures NextMessage(dev, cap, c).0.attrs == if c.Start? then Some(dev.attrs) else None
  {
  }

  lemma {:induction false} MessagesArePieces(i: Interface, dev: WgDevice, cap: nat, n: nat)
    requires n > 0
    ensures var (ms, c) := After(dev, cap, n);
            ReceiveAll(i, ms) == SetPeers(SetAttrs(i, dev.attrs), Pieces(ms))
  {
    hide NextMessage, SetPeers, SetAttrs, Pieces;
    var (ms, c) := After(dev, cap, n - 1);
    SentCount(dev, cap, n - 1);
    if n == 1 {
      var m := NextMessage(dev, cap, Start).0;
      AttrsFirst(dev, cap, Start);
      PiecesOfMore([], m);
      NoPieces();
      assert [] + [m] == [m] && [m][..0] == [] && [] + m.peers == m.peers;
    } else {
      MessagesArePieces(i, dev, cap, n - 1);
      if !c.Done? {
        var m := NextMessage(dev, cap, c).0;
        AttrsFirst(dev, cap, c);
        PiecesOfMore(ms, m);
        SetMorePeers(SetAttrs(i, dev.attrs), Pieces(ms), m.peers);
        assert (ms + [m])[..|ms|] == ms;
      }
    }
  }

  lemma NoPieces()
    ensures Pieces([]) == []
  {
  }

  /** When the exchange ends, the interface is as after one message with the whole configuration. */
  lemma SplittingIsUnseen(i: Interface, dev: WgDevice, cap: nat, n: nat)
    requires IsDone(dev, cap, n)
    ensures ReceiveAll(i, After(dev, cap, n).0) == Receive(i, Message(Some(dev.attrs), dev.peers, 0))
  {
    hide SetPeers, SetAttrs, Pieces, Rebuilds;
    ConfigurationArrives(dev, cap, n);
    MessagesArePieces(i, dev, cap, n);
    PiecesAreWhole(SetAttrs(i, dev.attrs), Pieces(After(dev, cap, n).0), dev.peers);
  }

  /** An allowed IP in the middle of a peer that is to replace its list is there in the end, however
      the list was split. */
  lemma {:induction false} IpsAreRouted(routes: map<Route, Key>, k: Key, ips: seq<AllowedIp>, j: nat)
    requires j < |ips| && forall m :: 0 <= m < |ips| ==> ips[m].flags == 0
    ensures var r := Route(ips[j].family, ips[j].addr, ips[j].cidr);
            r in AddIps(routes, k, ips) && AddIps(routes, k, ips)[r] == k
  {
    if j < |ips| - 1 {
      IpsAreRouted(routes, k, ips[..|ips| - 1], j);
    }
  }

  lemma EveryIpIsRouted(i: Interface, dev: WgDevice, cap: nat, n: nat, j: nat)
    requires IsDone(dev, cap, n) && |dev.peers| == 1 && !dev.peers[0].removeMe && j < |dev.peers[0].ips|
    requires forall m :: 0 <= m < |dev.peers[0].ips| ==> dev.peers[0].ips[m].flags == 0
    ensures var p := dev.peers[0];
            var r := Route(p.ips[j].family, p.ips[j].addr, p.ips[j].cidr);
            var after := ReceiveAll(i, After(dev, cap, n).0);
            r in after.routes && after.routes[r] == p.key
  {
    hide AddIps;
    var p := dev.peers[0];
    SplittingIsUnseen(i, dev, cap, n);
    var device := SetAttrs(i, dev.attrs);
    assert dev.peers[..0] == [] && SetPeers(device, []) == device;
    IpsAreRouted(if p.replaceIps then WithoutRoutesOf(device.routes, p.key) else device.routes, p.key, p.ips, j);
  }
}
