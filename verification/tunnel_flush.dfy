/**
 Flushing the queue: the call with an empty datagram is repeated until it no longer has
 something to write to the network.
 */
module TunnelFlush {
  import opened Wrappers
  import opened ByteStrings
  import opened Crypto
  import opened Wire
  import opened Words
  import opened Sessions
  import opened Handshakes
  import opened Tunnels

  /** Every buffer used is large enough for every packet queued. */
  ghost predicate RoomForQueue(queue: seq<Bytes>, envs: seq<Env>) {
    forall e :: e in envs ==>
      e.cap >= HANDSHAKE_INIT_SZ && forall p :: p in queue ==> e.cap >= |p| + DATA_OVERHEAD_SZ
  }

  datatype Flushed = Flushed(t: Tunn, written: seq<Bytes>, finished: bool)

  /** Asked for a handshake, the tunnel is in one afterwards; nothing else but its timers changes. */
  lemma InitiationGoesOut(c: Primitives, t: Tunn, env: Env)
    requires env.cap >= HANDSHAKE_INIT_SZ
    ensures var (t', r) := SendInitiation(c, t, env, false);
            && t' == t.(handshake := t'.handshake, timers := t'.timers) && t'.handshake.InProgress()
            && |t'.timers.sessionTimers| == |t.timers.sessionTimers|
            && (if t.handshake.InProgress() then r == Done else r.WriteToNetwork?)
  {
  }

  lemma SendQueuedShrinksOrRotates(c: Primitives, t: Tunn, env: Env)
    requires t.WellFormed() && t.queue != [] && |t.queue| <= MAX_QUEUE_DEPTH && RoomForQueue(t.queue, [env])
    ensures env.cap >= |t.queue[0]| + DATA_OVERHEAD_SZ
    ensures var (t', r) := SendQueued(c, t, env);
            && t'.WellFormed() && t'.current == t.current
            && match t.CurrentSession()
               case Some(s) =>
                 && t'.queue == t.queue[1..] && t'.CurrentSession() == Some(FormatPacketData(c, s, t.queue[0]).0)
                 && r == WriteToNetwork(FormatPacketData(c, s, t.queue[0]).1)
               case None =>
                 && t'.queue == Rotate(t.queue) && t'.CurrentSession().None? && t'.handshake.InProgress()
                 && (if t.handshake.InProgress() then r == Done else r.WriteToNetwork?)
  {
    hide SendInitiation;
    InitiationGoesOut(c, QueuePacket(t.(queue := t.queue[1..]), t.queue[0]), env);
    assert env in [env] && t.queue[0] in t.queue;
  }

  /** The front packet goes to the back. */
  function Rotate(queue: seq<Bytes>): (r: seq<Bytes>)
    ensures |r| == |queue|
    ensures multiset(r) == multiset(queue)
  {
    if queue == [] then []
    else
      assert queue == [queue[0]] + queue[1..];
      queue[1..] + [queue[0]]
  }

  /** What a call with an empty datagram does to the queue when there is no session: it loses nothing
      and adds nothing, unless the initiation fails for want of room in the output buffer and fewer than
      256 packets are queued; then the front packet is there twice, at the back and in front. */
  lemma QueueWithoutSession(c: Primitives, t: Tunn, env: Env)
    requires t.WellFormed() && t.CurrentSession().None? && t.queue != [] && |t.queue| <= MAX_QUEUE_DEPTH
    requires env.cap >= |t.queue[0]| + DATA_OVERHEAD_SZ
    ensures var (t', r) := SendQueued(c, t, env);
            && (multiset(t'.queue) == multiset(t.queue) <==>
                t.handshake.InProgress() || env.cap >= 148 || |t.queue| == 256)
            && (!t.handshake.InProgress() && env.cap < 148 ==>
                r == Done && t'.queue == (if |t.queue| < 256 then [t.queue[0]] else []) + t.queue[1..] + [t.queue[0]])
  {
    hide SendInitiation;
    var waiting := QueuePacket(t.(queue := t.queue[1..]), t.queue[0]);
    InitiationOrNot(c, waiting, env);
    var packet, rest := t.queue[0], t.queue[1..];
    assert t.queue == [packet] + rest;
    var t' := SendQueued(c, t, env).0;
    if t.handshake.InProgress() || env.cap >= 148 {
      assert t'.queue == rest + [packet];
    } else if |t.queue| < 256 {
      assert t'.queue == [packet] + (rest + [packet]);
      OnceMore(packet, rest);
    } else {
      assert t'.queue == rest + [packet];
    }
  }

  lemma InitiationOrNot(c: Primitives, t: Tunn, env: Env)
    ensures var (t', r) := SendInitiation(c, t, env, false);
            && t'.queue == t.queue
            && (r.Err? <==> !t.handshake.InProgress() && env.cap < 148)
  {
    hide InitiationMessage, AppendMacs;
  }

  lemma OnceMore(packet: Bytes, rest: seq<Bytes>)
    ensures multiset([packet] + (rest + [packet])) != multiset([packet] + rest)
  {
    assert multiset([packet] + (rest + [packet]))[packet] == multiset([packet] + rest)[packet] + 1;
  }

  /** The repeated calls, one Env each; `finished` when a call had nothing to write. */
  ghost function Flush(c: Primitives, t: Tunn, envs: seq<Env>): Flushed
    requires t.WellFormed() && |t.queue| <= MAX_QUEUE_DEPTH && RoomForQueue(t.queue, envs)
    decreases |envs|
  {
    if envs == [] then Flushed(t, [], false)
    else if t.queue == [] then Flushed(SendQueued(c, t, envs[0]).0, [], true)
    else
      assert RoomForQueue(t.queue, [envs[0]]);
      SendQueuedShrinksOrRotates(c, t, envs[0]);
      var (t1, r) := SendQueued(c, t, envs[0]);
      if r.WriteToNetwork? then
        assert RoomForQueue(t1.queue, envs[1..]) by { QueueStillFits(t.queue, t1.queue, envs); }
        var rest := Flush(c, t1, envs[1..]);
        Flushed(rest.t, [r.datagram] + rest.written, rest.finished)
      else Flushed(t1, [], true)
  }

  lemma QueueStillFits(queue: seq<Bytes>, queue': seq<Bytes>, envs: seq<Env>)
    requires RoomForQueue(queue, envs) && envs != []
    requires queue' == Rotate(queue) || (queue != [] && queue' == queue[1..])
    ensures RoomForQueue(queue', envs[1..])
  {
    if queue' == Rotate(queue) {
      forall p | p in queue'
        ensures p in queue
      {
        assert p in multiset(queue');
      }
    }
  }

  lemma FlushOfNone(c: Primitives, t: Tunn)
    requires t.WellFormed() && |t.queue| <= MAX_QUEUE_DEPTH
    ensures RoomForQueue(t.queue, []) && !Flush(c, t, []).finished
  {
  }

  /** One turn of the loop. */
  lemma FlushStep(c: Primitives, t: Tunn, envs: seq<Env>)
    requires t.WellFormed() && |t.queue| <= MAX_QUEUE_DEPTH && RoomForQueue(t.queue, envs) && envs != []
    ensures t.queue != [] ==> envs[0].cap >= |t.queue[0]| + DATA_OVERHEAD_SZ
    ensures var (t1, r) := SendQueued(c, t, envs[0]);
            var f := Flush(c, t, envs);
            if r.WriteToNetwork? then
              && t1.WellFormed() && |t1.queue| <= MAX_QUEUE_DEPTH && RoomForQueue(t1.queue, envs[1..])
              && var rest := Flush(c, t1, envs[1..]);
              && f == Flushed(rest.t, [r.datagram] + rest.written, rest.finished)
            else f == Flushed(t1, [], true)
  {
    if t.queue != [] {
      assert RoomForQueue(t.queue, [envs[0]]);
      SendQueuedShrinksOrRotates(c, t, envs[0]);
      QueueStillFits(t.queue, SendQueued(c, t, envs[0]).0.queue, envs);
    }
  }

  /** Packets formatted one after the other on one session. */
  function FormatAll(c: Primitives, s: SessionState, packets: seq<Bytes>): (SessionState, seq<Bytes>)
    decreases |packets|
  {
    if packets == [] then (s, [])
    else
      var (s1, datagram) := FormatPacketData(c, s, packets[0]);
      var (s2, rest) := FormatAll(c, s1, packets[1..]);
      (s2, [datagram] + rest)
  }

  /** With a session in the current slot the loop ends after as many calls as packets are queued
      and one more, having written exactly the queued packets, in order, and emptied the queue. */
  lemma {:induction false} FlushWithSession(c: Primitives, t: Tunn, envs: seq<Env>)
    requires t.WellFormed() && |t.queue| <= MAX_QUEUE_DEPTH && RoomForQueue(t.queue, envs)
    requires t.CurrentSession().Some? && |envs| > |t.queue|
    ensures var f := Flush(c, t, envs);
            var (session, datagrams) := FormatAll(c, t.CurrentSession().value, t.queue);
            && f.finished && f.written == datagrams
            && f.t.queue == [] && f.t.WellFormed() && f.t.CurrentSession() == Some(session)
            && f.t.current == t.current
    decreases |t.queue|
  {
    if t.queue != [] {
      assert RoomForQueue(t.queue, [envs[0]]);
      SendQueuedShrinksOrRotates(c, t, envs[0]);
      var t1 := SendQueued(c, t, envs[0]).0;
      QueueStillFits(t.queue, t1.queue, envs);
      FlushWithSession(c, t1, envs[1..]);
    }
  }

  lemma FlushWhileInProgress(c: Primitives, t: Tunn, envs: seq<Env>)
    requires t.WellFormed() && t.queue != [] && |t.queue| <= MAX_QUEUE_DEPTH && RoomForQueue(t.queue, envs)
    requires t.CurrentSession().None? && t.handshake.InProgress() && envs != []
    ensures var f := Flush(c, t, envs);
            f.finished && f.written == [] && f.t.queue == Rotate(t.queue) && f.t.handshake.InProgress()
  {
    assert RoomForQueue(t.queue, [envs[0]]);
    SendQueuedShrinksOrRotates(c, t, envs[0]);
  }

  /** Without one the loop ends after at most two calls; it writes at most one datagram, the
      initiation of a handshake that was not yet in progress, and only rotates the queue. */
  lemma FlushWithoutSession(c: Primitives, t: Tunn, envs: seq<Env>)
    requires t.WellFormed() && |t.queue| <= MAX_QUEUE_DEPTH && RoomForQueue(t.queue, envs)
    requires t.CurrentSession().None? && |envs| >= 2
    ensures var f := Flush(c, t, envs);
            && f.finished
            && multiset(f.t.queue) == multiset(t.queue)
            && (if t.queue == [] then f.t == t && f.written == []
                else if t.handshake.InProgress() then f.t.queue == Rotate(t.queue) && f.written == []
                else f.t.queue == Rotate(Rotate(t.queue)) && |f.written| == 1 && f.t.handshake.InProgress())
  {
    if t.queue != [] {
      if t.handshake.InProgress() {
        FlushWhileInProgress(c, t, envs);
      } else {
        assert RoomForQueue(t.queue, [envs[0]]);
        SendQueuedShrinksOrRotates(c, t, envs[0]);
        var t1 := SendQueued(c, t, envs[0]).0;
        QueueStillFits(t.queue, t1.queue, envs);
        FlushWhileInProgress(c, t1, envs[1..]);
      }
    }
  }

  /** The other end, receiving datagrams one after the other. */
  function ReceiveAll(c: Primitives, s: SessionState, datagrams: seq<Bytes>): seq<Option<Bytes>>
    decreases |datagrams|
  {
    if datagrams == [] then []
    else
      match ParseIncomingPacket(datagrams[0])
      case Success(PacketData(r, n, d)) =>
        var (s1, result) := ReceivePacketData(c, s, PacketData(r, n, d));
        [if result.Success? then Some(result.value) else None] + ReceiveAll(c, s1, datagrams[1..])
      case _ => [None] + ReceiveAll(c, s, datagrams[1..])
  }

  /** What one end formats in a row, the other end, receiving it in order, recovers in full. */
  lemma {:induction false} AllPacketsArrive(c: Primitives, sender: SessionState, receiver: SessionState,
                                            packets: seq<Bytes>)
    requires c.Lawful() && Crossed(sender, receiver) && sender.sendingIndex < U32_LIMIT
    requires sender.sendCounter + |packets| <= U64_LIMIT
    requires receiver.window.Consistent() && receiver.window.next <= sender.sendCounter
    ensures var received := ReceiveAll(c, receiver, FormatAll(c, sender, packets).1);
            && |received| == |packets|
            && forall k :: 0 <= k < |packets| ==> received[k] == Some(packets[k])
    decreases |packets|
  {
    if packets != [] {
      var (sender', datagram) := FormatPacketData(c, sender, packets[0]);
      PacketIsRecovered(c, sender, receiver, packets[0]);
      var packet := ParseIncomingPacket(datagram).value;
      var receiver' := ReceivePacketData(c, receiver, packet).0;
      FormattedCounter(c, sender, packets[0]);
      AllPacketsArrive(c, sender', receiver', packets[1..]);
    }
  }

  lemma FormattedCounter(c: Primitives, s: SessionState, src: Bytes)
    requires c.Lawful() && s.sendingIndex < U32_LIMIT && s.sendCounter < U64_LIMIT
    ensures var p := ParseIncomingPacket(FormatPacketData(c, s, src).1);
            p.Success? && p.value.PacketData? && p.value.counter == s.sendCounter
  {
    ParseOfData(PacketData(s.sendingIndex, s.sendCounter, c.Seal(s.sendingKey, s.sendCounter, src, [])));
  }
}
