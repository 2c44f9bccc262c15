/** The older UDP responder, the one the firmware's main loop uses. It
    differs from the newer one in four ways: the payload is compared
    untrimmed, the handshake is "HELLO ESP", a packet is begun for every
    datagram before it is classified (and left open for payloads that get no
    reply), and a failed command is answered with `println`, so with a line
    ending. Its receive buffer is one byte short: see `ReadIntoShortBuffer`. */
module LegacyUdp {
  import opened ArduinoString
  import opened Wrappers
  import Discovery
  import opened UdpManager

  const LegacyHandshake: Str := "HELLO ESP"
  /** `char packetBuffer[255]`, read with a limit of 255. */
  const LegacyBufferSize: nat := 255
  /** `println` ends the line with a carriage return and a line feed. */
  const FailureLine: Str := "FAILURE\r\n"

  /** What the older `handle` sends for one datagram (`packet == []` when
      `parsePacket` reports nothing). */
  function LegacyReply(r: Responder, packet: Str, d: Device): (out: seq<Datagram>)
    requires ValidDevice(d)
    ensures !r.running || packet == [] ==> out == []
    ensures r.running && packet != [] ==> |out| >= 1 && out[0] == BeginPacket
    ensures |out| <= 3 && (|out| == 3 ==> out[1].Write? && out[2] == EndPacket)
  {
    if !r.running || packet == [] then []
    else
      var message := Received(packet);
      var response := Trim(Discovery.Descriptor(d.chipId, d.ip, d.deviceType, d.version));
      [BeginPacket]
      + if message == LegacyHandshake then [Write(response), EndPacket]
        else if StartsWith(message, CommandMark) then
          match r.listener
          case None => []
          case Some(f) => [Write(if f(message) then "SUCCESS" else FailureLine), EndPacket]
        else []
  }

  // ---------------------------------------------------------------------------
  // Properties

  /** Every received datagram begins a packet; it is ended only for the
      handshake and for a command with a listener, so every other payload
      leaves that packet open. */
  lemma PacketBegunBeforeClassifying(r: Responder, packet: Str, d: Device)
    requires ValidDevice(d) && r.running && packet != []
    ensures var out := LegacyReply(r, packet, d);
      var message := Received(packet);
      && out[0] == BeginPacket
      && (EndPacket in out <==>
            message == LegacyHandshake || (StartsWith(message, CommandMark) && r.listener.Some?))
      && (EndPacket !in out ==> out == [BeginPacket])
  {
  }

  /** The handshake is answered with the same descriptor as the newer
      responder (trimming it changes nothing). */
  lemma HandshakeAnswered(r: Responder, packet: Str, d: Device)
    requires ValidDevice(d) && r.running && packet != []
    requires Received(packet) == LegacyHandshake
    ensures LegacyReply(r, packet, d)
      == [BeginPacket, Write(Discovery.Descriptor(d.chipId, d.ip, d.deviceType, d.version)), EndPacket]
  {
    Discovery.DescriptorTrimmed(d.chipId, d.ip, d.deviceType, d.version);
  }

  /** The payload is not trimmed: the handshake followed by anything (a line
      ending, say) gets no reply and leaves the begun packet open, where the
      newer responder would answer it. */
  lemma SuffixedHandshakeIgnored(r: Responder, post: Str, d: Device)
    requires ValidDevice(d) && r.running
    requires post != [] && |LegacyHandshake| + |post| <= ReadLimit
    requires forall k :: 0 <= k < |post| ==> post[k] != '\0'
    ensures LegacyReply(r, LegacyHandshake + post, d) == [BeginPacket]
  {
    var p := LegacyHandshake + post;
    assert p[..Min(|p|, ReadLimit)] == p;
    CStringNoNul(p);
    assert Received(p) == p;
    assert p[0] == 'H';
  }

  /** A command with a listener is answered "SUCCESS" or "FAILURE" with a
      line ending, by the listener's verdict. */
  lemma CommandAnswered(r: Responder, packet: Str, d: Device)
    requires ValidDevice(d) && r.running && packet != [] && r.listener.Some?
    requires StartsWith(Received(packet), CommandMark)
    ensures LegacyReply(r, packet, d)
      == [BeginPacket, Write(if r.listener.value(Received(packet)) then "SUCCESS" else FailureLine), EndPacket]
  {
    assert Received(packet) != LegacyHandshake by {
      assert Received(packet)[0] == 'C';
    }
  }

  /** The older buffer: a datagram of 255 bytes or more fills all 255 places
      of `packetBuffer`, so the terminator `packetBuffer[len] = 0` is written
      one place past its end. */
  lemma TerminatorOutOfBounds(packet: Str)
    requires |packet| >= LegacyBufferSize
    ensures Min(|packet|, LegacyBufferSize) == LegacyBufferSize
  {
  }

  /** The buffer handling as written: read at most 255 bytes into a 255-byte
      buffer and terminate at the length read. The write is inside the buffer
      only for datagrams of at most 254 bytes, which is what it requires. */
  method ReadIntoShortBuffer(packet: Str) returns (message: Str)
    requires packet != [] && |packet| < LegacyBufferSize
    ensures message == Received(packet)
  {
    var buffer := new char[LegacyBufferSize];
    var len := Min(|packet|, LegacyBufferSize);
    forall k | 0 <= k < len {
      buffer[k] := packet[k];
    }
    if len > 0 {
      buffer[len] := '\0';
    }
    message := CStringOf(buffer, len);
    assert buffer[..len] == packet[..len];
  }

  // ---------------------------------------------------------------------------

  class Manager {
    var running: bool
    var listener: Option<Str -> bool>
    /** Everything sent, oldest first. */
    var sent: seq<Datagram>

    function State(): Responder
      reads this
    {
      Responder(running, listener)
    }

    constructor ()
      ensures State() == UdpManager.Boot && sent == []
    {
      running := false;
      listener := None;
      sent := [];
    }

    method Init(bound: bool)
      modifies this
      ensures State() == InitStep(old(State()), bound) && sent == old(sent)
    {
      if bound {
        running := true;
      }
    }

    method Stop()
      modifies this
      ensures State() == old(State()).(running := false) && sent == old(sent)
    {
      running := false;
    }

    method SetMessageListener(callback: Option<Str -> bool>)
      modifies this
      ensures State() == old(State()).(listener := callback) && sent == old(sent)
    {
      listener := callback;
    }

    /** The older `handle`, with its receive buffer one byte longer as the
        newer revision has it, so that every datagram is read safely. */
    method Handle(packet: Str, d: Device)
      requires ValidDevice(d)
      modifies this
      ensures State() == old(State())
      ensures sent == old(sent) + LegacyReply(old(State()), packet, d)
    {
      if !running {
        return;
      }
      if packet != [] {
        var message := ReadPacket(packet);
        var packetOps: seq<Datagram> := [BeginPacket];
        var response := Trim(Discovery.Descriptor(d.chipId, d.ip, d.deviceType, d.version));
        if message == LegacyHandshake {
          packetOps := packetOps + [Write(response), EndPacket];
        } else if StartsWith(message, CommandMark) {
          if listener.Some? {
            var ok := listener.value(message);
            packetOps := packetOps + [Write(if ok then "SUCCESS" else FailureLine), EndPacket];
          }
        }
        sent := sent + packetOps;
      }
    }
  }
}
