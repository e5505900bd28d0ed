/** The handshake that fixes the segment size and the window of a session. */
module BtpHandshake {
  import opened Wire
  import opened BtpEngine

  const BTP_VERSION: byte := 4
  const MAX_SEGMENT_SIZE: nat := 244
  const WINDOW_SIZE: byte := 6

  datatype HandshakeError = MalformedHandshake | UnsupportedVersion(version: byte) | FragmentTooSmall(size: nat)

  datatype Response = Response(version: byte, segmentSize: nat, window: byte)

  /** The request: check bytes, eight version nibbles of which the first is ours, the MTU and
      the window. */
  function EncodeRequest(mtu: nat, window: byte): (s: bytes)
    ensures |s| == 9
  {
    [0x65, 0x6C, BTP_VERSION, 0x00, 0x00, 0x00] + ToLe(mtu, 2) + [window]
  }

  function ParseResponse(packet: bytes): (r: Result<Response, HandshakeError>)
  {
    if |packet| != 6 then Err(MalformedHandshake)
    else if packet[0] != 0x65 || packet[1] != 0x6C then Err(MalformedHandshake)
    else if packet[2] != BTP_VERSION then Err(UnsupportedVersion(packet[2]))
    else
      var size := FromLe(packet[3..5]);
      if size < MIN_SEGMENT_SIZE then Err(FragmentTooSmall(size))
      else if packet[5] == 0 then Err(MalformedHandshake)
      else Ok(Response(packet[2], Min(size, MAX_SEGMENT_SIZE), Min(packet[5], WINDOW_SIZE)))
  }

  /** Version nibble `i` of a request: even nibbles are low, odd ones high. */
  function VersionNibble(s: bytes, i: nat): (v: nat)
    requires |s| == 9 && i < 8
  {
    if i % 2 == 0 then s[2 + i / 2] % 16 else s[2 + i / 2] / 16
  }

  /** A request begins with the check bytes, offers exactly version 4 and carries the MTU and the
      window. */
  lemma RequestIsReadBack(mtu: nat, window: byte, i: nat)
    requires mtu < 0x1_0000 && i < 8
    ensures var s := EncodeRequest(mtu, window);
            && s[0] == 0x65 && s[1] == 0x6C && VersionNibble(s, i) == (if i == 0 then 4 else 0)
            && FromLe(s[6..8]) == mtu && s[8] == window
  {
    var s := EncodeRequest(mtu, window);
    assert s[6..8] == ToLe(mtu, 2);
    assert Pow256(2) == 0x1_0000;
    LeRoundTrip(mtu, 2);
  }

  /** The segment size a response offers. */
  function Offered(packet: bytes): (n: nat)
    requires |packet| == 6
  {
    packet[3] as nat + 256 * packet[4] as nat
  }

  predicate Checks(packet: bytes)
  {
    |packet| == 6 && packet[0] == 0x65 && packet[1] == 0x6C
  }

  lemma SizeIsOffered(packet: bytes)
    requires |packet| == 6
    ensures FromLe(packet[3..5]) == Offered(packet)
  {
    var s := packet[3..5];
    assert s[1..][1..] == [];
    assert FromLe(s) == s[0] + 256 * FromLe(s[1..]);
    assert FromLe(s[1..]) == s[1] + 256 * FromLe(s[1..][1..]);
  }

  /** A response is accepted exactly when it checks, has version 4, a size of at least 6 and a
      window; what is negotiated is the smaller of each offer and our own 244 and 6, and a session
      takes it as it is.  Anything else is refused for the first of these reasons. */
  lemma NegotiatedSession(packet: bytes, role: Role, now: nat)
    ensures var r := ParseResponse(packet);
            && (r.Ok? <==> Checks(packet) && packet[2] == 4 && Offered(packet) >= 6 && packet[5] > 0)
            && (r.Err? && r.error.UnsupportedVersion? <==> Checks(packet) && packet[2] != 4)
            && (r.Err? && r.error.FragmentTooSmall? <==> Checks(packet) && packet[2] == 4 && Offered(packet) < 6)
            && (r == Err(MalformedHandshake) <==>
                  !Checks(packet) || (packet[2] == 4 && Offered(packet) >= 6 && packet[5] == 0))
    ensures ParseResponse(packet).Err? && ParseResponse(packet).error.UnsupportedVersion? ==>
              |packet| == 6 && ParseResponse(packet).error.version == packet[2]
    ensures ParseResponse(packet).Err? && ParseResponse(packet).error.FragmentTooSmall? ==>
              |packet| == 6 && ParseResponse(packet).error.size == Offered(packet)
    ensures ParseResponse(packet).Ok? ==>
      var r := ParseResponse(packet).value;
      && |packet| == 6 && r.version == 4
      && r.segmentSize == (if Offered(packet) < 244 then Offered(packet) else 244)
      && r.window == (if packet[5] < 6 then packet[5] else 6)
      && var s := New(role, r.segmentSize, r.window, now);
         s.segmentSize == r.segmentSize && s.localWindowMax == r.window && s.remoteWindow == r.window
  {
    if |packet| == 6 {
      SizeIsOffered(packet);
    }
  }
}
