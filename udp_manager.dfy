/** The UDP discovery responder (the newer revision). Each tick it reads at
    most one datagram; a trimmed payload equal to the handshake gets the
    discovery descriptor back, a payload starting with "Cmd" is handed to the
    registered listener and answered "SUCCESS" or "FAILURE", and anything
    else is ignored. The socket is not modelled: what the responder sends is
    recorded as `Datagram` operations. */
module UdpManager {
  import opened ArduinoString
  import opened Wrappers
  import Discovery

  const LocalPort: nat := 4210
  const Handshake: Str := "LUMIX_DISCOVERY"
  const CommandMark: Str := "Cmd"
  /** `char packetBuffer[256]`, read with `sizeof(packetBuffer) - 1`. */
  const BufferSize: nat := 256
  const ReadLimit: nat := BufferSize - 1

  /** Calls into the socket's send side, in order. */
  datatype Datagram = BeginPacket | Write(text: Str) | EndPacket

  /** What the build and the network stack supply to the descriptor. */
  datatype Device = Device(chipId: nat, ip: Str, deviceType: Str, version: Str)

  predicate ValidDevice(d: Device) {
    d.chipId < Discovery.ChipIdBound
  }

  /** `udpRunning` and `messageCallback`. */
  datatype Responder = Responder(running: bool, listener: Option<Str -> bool>)

  const Boot: Responder := Responder(false, None)

  function Min(a: nat, b: nat): nat {
    if a < b then a else b
  }

  /** The message a datagram yields: at most `ReadLimit` bytes are read, and
      `String(packetBuffer)` stops at the first NUL. */
  function Received(packet: Str): (r: Str)
    ensures |r| <= ReadLimit && r <= packet && '\0' !in r
    ensures |packet| <= ReadLimit && '\0' !in packet ==> r == packet
  {
    CString(packet[..Min(|packet|, ReadLimit)])
  }

  /** What `handle` sends for one received datagram (`packet == []` when
      `parsePacket` reports nothing). */
  function Reply(r: Responder, packet: Str, d: Device): (out: seq<Datagram>)
    requires ValidDevice(d)
    ensures !r.running || packet == [] ==> out == []
    ensures out == [] || (|out| == 3 && out[0] == BeginPacket && out[1].Write? && out[2] == EndPacket)
    ensures out != [] ==> Trim(Received(packet)) == Handshake || (StartsWith(Trim(Received(packet)), CommandMark) && r.listener.Some?)
  {
    if !r.running || packet == [] then []
    else
      var message := Trim(Received(packet));
      if message == Handshake then
        [BeginPacket, Write(Discovery.Descriptor(d.chipId, d.ip, d.deviceType, d.version)), EndPacket]
      else if StartsWith(message, CommandMark) then
        match r.listener
        case None => []
        case Some(f) => [BeginPacket, Write(if f(message) then "SUCCESS" else "FAILURE"), EndPacket]
      else []
  }

  /** `init`: the responder runs once the socket is bound. */
  function InitStep(r: Responder, bound: bool): Responder {
    if bound then r.(running := true) else r
  }

  // ---------------------------------------------------------------------------
  // Properties

  /** Nothing is sent unless the socket was bound and a datagram arrived; a
      reply is always one whole packet. */
  lemma ReplyIsOnePacket(r: Responder, packet: Str, d: Device)
    requires ValidDevice(d)
    ensures var out := Reply(r, packet, d);
      && (!r.running || packet == [] ==> out == [])
      && (out == [] || (|out| == 3 && out[0] == BeginPacket && out[1].Write? && out[2] == EndPacket))
  {
  }

  /** The payload is trimmed first: the handshake surrounded by white space
      (as a terminal's trailing newline adds) still gets the descriptor. */
  lemma PaddedHandshakeAnswered(r: Responder, pre: Str, post: Str, d: Device)
    requires ValidDevice(d) && r.running
    requires forall k :: 0 <= k < |pre| ==> IsSpace(pre[k])
    requires forall k :: 0 <= k < |post| ==> IsSpace(post[k])
    requires |pre| + |Handshake| + |post| <= ReadLimit
    ensures Reply(r, pre + Handshake + post, d)
      == [BeginPacket, Write(Discovery.Descriptor(d.chipId, d.ip, d.deviceType, d.version)), EndPacket]
  {
    var p := pre + Handshake + post;
    assert p[..Min(|p|, ReadLimit)] == p;
    CStringNoNul(p);
    TrimPadded(pre, Handshake, post);
  }

  lemma {:induction false} CStringNoNul(s: Str)
    requires forall k :: 0 <= k < |s| ==> s[k] != '\0'
    ensures CString(s) == s
  {
    if s != [] {
      CStringNoNul(s[1..]);
    }
  }

  /** A command goes to the listener; its verdict decides the reply, and
      without a listener nothing is sent. Anything that is neither the
      handshake nor a command gets no reply. */
  lemma CommandAnswered(r: Responder, packet: Str, d: Device)
    requires ValidDevice(d) && r.running && packet != []
    ensures var message := Trim(Received(packet));
      var out := Reply(r, packet, d);
      && (message != Handshake && StartsWith(message, CommandMark) ==>
            (r.listener.None? ==> out == [])
            && (r.listener.Some? ==>
                  out == [BeginPacket, Write(if r.listener.value(message) then "SUCCESS" else "FAILURE"), EndPacket]))
      && (message != Handshake && !StartsWith(message, CommandMark) ==> out == [])
  {
  }

  // ---------------------------------------------------------------------------

  class Manager {
    var running: bool
    var listener: Option<Str -> bool>
    /** Everything sent, oldest first. */
    var sent: seq<Datagram>

    function State(): Responder
      reads this
    {
      Responder(running, listener)
    }

    constructor ()
      ensures State() == Boot && sent == []
    {
      running := false;
      listener := None;
      sent := [];
    }

    /** `init(port)`; `bound` is whether `udp.begin(port)` succeeded. */
    method Init(bound: bool)
      modifies this
      ensures State() == InitStep(old(State()), bound) && sent == old(sent)
    {
      if bound {
        running := true;
      }
    }

    method Stop()
      modifies this
      ensures State() == old(State()).(running := false) && sent == old(sent)
    {
      running := false;
    }

    method SetMessageListener(callback: Option<Str -> bool>)
      modifies this
      ensures State() == old(State()).(listener := callback) && sent == old(sent)
    {
      listener := callback;
    }

    /** `handle`, for the datagram `packet` (empty when none is pending). */
    method Handle(packet: Str, d: Device)
      requires ValidDevice(d)
      modifies this
      ensures State() == old(State())
      ensures sent == old(sent) + Reply(old(State()), packet, d)
    {
      if !running {
        return;
      }
      if |packet| > 0 {
        var message := ReadPacket(packet);
        message := Trim(message);
        if message == Handshake {
          sent := sent + [BeginPacket, Write(Discovery.Descriptor(d.chipId, d.ip, d.deviceType, d.version)), EndPacket];
        } else if StartsWith(message, CommandMark) {
          if listener.Some? {
            var ok := listener.value(message);
            sent := sent + [BeginPacket, Write(if ok then "SUCCESS" else "FAILURE"), EndPacket];
          }
        }
      }
    }
  }

  /** The buffer handling of `handle`: read at most 255 bytes into a 256-byte
      buffer, terminate, and take the C string. The terminator is always
      written inside the buffer. */
  method ReadPacket(packet: Str) returns (message: Str)
    requires packet != []
    ensures message == Received(packet)
  {
    var buffer := new char[BufferSize];
    var len := Min(|packet|, ReadLimit);
    forall k | 0 <= k < len {
      buffer[k] := packet[k];
    }
    if len > 0 {
      buffer[len] := '\0';
    }
    message := CStringOf(buffer, len);
    assert buffer[..len] == packet[..len];
  }

  /** `String(buffer)` for a buffer whose first `len` characters are the data
      and whose character at `len` is the terminator. */
  method CStringOf(buffer: array<char>, len: nat) returns (s: Str)
    requires len < buffer.Length && buffer[len] == '\0'
    ensures s == CString(buffer[..len])
  {
    var i := 0;
    while buffer[i] != '\0'
      invariant 0 <= i <= len
      invariant forall k :: 0 <= k < i ==> buffer[k] != '\0'
      decreases len - i
    {
      i := i + 1;
    }
    s := buffer[..i];
    CStringPrefix(buffer[..len], i);
  }

  lemma {:induction false} CStringPrefix(s: Str, i: nat)
    requires i <= |s|
    requires forall k :: 0 <= k < i ==> s[k] != '\0'
    requires i < |s| ==> s[i] == '\0'
    ensures CString(s) == s[..i]
  {
    if s != [] && s[0] != '\0' {
      CStringPrefix(s[1..], i - 1);
      assert s[..i] == [s[0]] + s[1..][..i - 1];
    }
  }
}
