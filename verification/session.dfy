/** A transport session: formatting data packets, and the check-decrypt-mark receive path. */
module Sessions {
  import opened Wrappers
  import opened ByteStrings
  import opened Crypto
  import opened Wire
  import opened ReplayWindow
  import opened Words

  const DATA_OFFSET: nat := 16
  const AEAD_SIZE: nat := 16

  /** A session as a value. */
  datatype SessionState = SessionState(
    receivingIndex: nat,
    sendingIndex: nat,
    receivingKey: Bytes,
    sendingKey: Bytes,
    sendCounter: nat,
    window: Window,
    receiveCnt: nat)
  {
    /** The receive count is the number of counters seen. */
    ghost predicate Counted() {
      window.Consistent() && receiveCnt == |window.seen|
    }
  }

  function NewSession(localIndex: nat, peerIndex: nat, receivingKey: Bytes, sendingKey: Bytes): SessionState {
    SessionState(localIndex, peerIndex, receivingKey, sendingKey, 0, EmptyWindow, 0)
  }

  function FormatPacketData(c: Primitives, s: SessionState, src: Bytes): (SessionState, Bytes) {
    (s.(sendCounter := s.sendCounter + 1),
     PacketData(s.sendingIndex, s.sendCounter, c.Seal(s.sendingKey, s.sendCounter, src, [])).Encode())
  }

  /** The error a refused counter is reported as. */
  function AsError(v: Verdict): WireGuardError {
    if v == Verdict.DuplicateCounter then WireGuardError.DuplicateCounter else WireGuardError.InvalidCounter
  }

  function ReceivePacketData(c: Primitives, s: SessionState, packet: Packet)
    : (SessionState, Result<Bytes, WireGuardError>)
    requires packet.PacketData?
  {
    if packet.receiverIdx != s.receivingIndex then (s, Failure(WrongIndex))
    else
      var quick := s.window.QuickCheck(packet.counter);
      if quick != Accepted then (s, Failure(AsError(quick)))
      else
        match c.Open(s.receivingKey, packet.counter, packet.encapsulated, [])
        case None => (s, Failure(InvalidAeadTag))
        case Some(plain) =>
          var (window, verdict) := s.window.Mark(packet.counter);
          if verdict != Accepted then (s.(window := window), Failure(AsError(verdict)))
          else (s.(window := window, receiveCnt := s.receiveCnt + 1), Success(plain))
  }

  /** Receiving keeps the count, and only a packet for this session is received. */
  lemma ReceiveKeepsCounted(c: Primitives, s: SessionState, packet: Packet)
    requires packet.PacketData? && s.Counted()
    ensures var (s', r) := ReceivePacketData(c, s, packet);
            && s'.Counted() && s'.receivingIndex == s.receivingIndex
            && (r.Success? ==> packet.receiverIdx == s.receivingIndex)
  {
    var seen, counter := s.window.seen, packet.counter;
    assert counter !in seen ==> |seen + {counter}| == |seen| + 1;
  }

  /** What becomes of a data packet: which test it fails first, and that a refused packet, opened or
      not, leaves no trace in the window. */
  lemma ReceiveDecides(c: Primitives, s: SessionState, p: Packet)
    requires p.PacketData? && s.window.Consistent()
    ensures var (s', r) := ReceivePacketData(c, s, p);
            var plain := c.aeadOpen(s.receivingKey, Zeros(4) + LittleEndian(8, p.counter), p.encapsulated, []);
            && (r.Failure? ==> s' == s)
            && r == (if p.receiverIdx != s.receivingIndex then Failure(WrongIndex)
                     else if p.counter + 1024 < s.window.next then Failure(WireGuardError.InvalidCounter)
                     else if p.counter in s.window.seen then Failure(WireGuardError.DuplicateCounter)
                     else if plain.None? then Failure(InvalidAeadTag)
                     else Success(plain.value))
            && (r.Success? ==>
                  && s'.window.seen == s.window.seen + {p.counter} && s'.receiveCnt == s.receiveCnt + 1
                  && s' == s.(window := s'.window, receiveCnt := s'.receiveCnt))
  {
  }

  /** What is sent: type and index, the counter, and the packet sealed under the counter as a nonce. */
  lemma FormattedIs(c: Primitives, s: SessionState, src: Bytes)
    ensures FormatPacketData(c, s, src) ==
            (s.(sendCounter := s.sendCounter + 1),
             [4, 0, 0, 0] + LittleEndian(4, s.sendingIndex) + LittleEndian(8, s.sendCounter)
             + c.aeadSeal(s.sendingKey, Zeros(4) + LittleEndian(8, s.sendCounter), src, []))
  {
    assert LittleEndian(3, 0) == [0, 0, 0];
    assert LittleEndian(4, DATA) == [4, 0, 0, 0];
  }

  /** The two ends of one handshake hold crossed keys and crossed indices. */
  ghost predicate Crossed(a: SessionState, b: SessionState) {
    && a.receivingKey == b.sendingKey
    && a.sendingKey == b.receivingKey
    && a.receivingIndex == b.sendingIndex
    && a.sendingIndex == b.receivingIndex
  }

  /** What the sender formats, the other end recovers unchanged, exactly when its window
      still admits the counter; and it never recovers that packet again. */
  lemma PacketIsRecovered(c: Primitives, sender: SessionState, receiver: SessionState, src: Bytes)
    requires c.Lawful() && Crossed(sender, receiver)
    requires sender.sendingIndex < U32_LIMIT && sender.sendCounter < U64_LIMIT
    ensures var datagram := FormatPacketData(c, sender, src).1;
            var packet := ParseIncomingPacket(datagram);
            && |datagram| == |src| + DATA_OVERHEAD_SZ
            && packet.Success? && packet.value.PacketData?
            && var (receiver', r) := ReceivePacketData(c, receiver, packet.value);
            && (r == Success(src) <==> receiver.window.Admits(sender.sendCounter))
            && (r.Failure? ==> receiver' == receiver)
            && ReceivePacketData(c, receiver', packet.value).1.Failure?
  {
    var sealed := c.Seal(sender.sendingKey, sender.sendCounter, src, []);
    var packet := PacketData(sender.sendingIndex, sender.sendCounter, sealed);
    ParseOfData(packet);
  }

  /** The object behind a session: an atomic send counter and the validator under its lock. */
  class Session {
    const receivingIndex: nat
    const sendingIndex: nat
    const receivingKey: Bytes
    const sendingKey: Bytes
    var sendCounter: nat
    const validator: Validator

    /** The session and what it owns. */
    ghost function Repr(): set<object> {
      {this, validator, validator.bitmap}
    }

    ghost predicate Valid()
      reads Repr()
    {
      validator.Valid()
    }

    ghost function State(): SessionState
      reads this, validator
    {
      SessionState(receivingIndex, sendingIndex, receivingKey, sendingKey, sendCounter,
                   validator.Abstract(), validator.receiveCnt)
    }

    constructor (localIndex: nat, peerIndex: nat, receivingKey: Bytes, sendingKey: Bytes)
      ensures Valid() && State() == NewSession(localIndex, peerIndex, receivingKey, sendingKey)
      ensures fresh(Repr())
    {
      this.receivingIndex := localIndex;
      this.sendingIndex := peerIndex;
      this.receivingKey := receivingKey;
      this.sendingKey := sendingKey;
      sendCounter := 0;
      validator := new Validator();
    }

    method Format(c: Primitives, src: Bytes) returns (datagram: Bytes)
      requires Valid()
      modifies this`sendCounter
      ensures Valid() && (State(), datagram) == FormatPacketData(c, old(State()), src)
    {
      var counter := sendCounter;
      sendCounter := sendCounter + 1;
      datagram := LittleEndian(4, DATA) + LittleEndian(4, sendingIndex) + LittleEndian(8, counter);
      datagram := datagram + c.Seal(sendingKey, counter, src, []);
    }

    method Receive(c: Primitives, packet: Packet) returns (r: Result<Bytes, WireGuardError>)
      requires Valid() && packet.PacketData? && packet.counter + N_BITS < U64_LIMIT
      modifies validator, validator.bitmap
      ensures Valid() && (State(), r) == ReceivePacketData(c, old(State()), packet)
    {
      if packet.receiverIdx != receivingIndex {
        return Failure(WrongIndex);
      }
      var quick := validator.WillAccept(packet.counter);
      if quick != Accepted {
        return Failure(AsError(quick));
      }
      var plain := c.Open(receivingKey, packet.counter, packet.encapsulated, []);
      if plain.None? {
        return Failure(InvalidAeadTag);
      }
      var verdict := validator.ReceivingCounterMark(packet.counter);
      if verdict != Accepted {
        return Failure(AsError(verdict));
      }
      r := Success(plain.value);
    }

    /** The counters expected so far, and how many of them were received. */
    function CurrentPacketCnt(): (nat, nat)
      reads validator
    {
      (validator.next, validator.receiveCnt)
    }
  }
}
