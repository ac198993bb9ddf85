/** ACL data packets with their L2CAP header (Bluetooth Core Specification, Volume 3, Part A,
    section 3): how the host builds them and which ones it accepts. */
module AclPackets {
  import opened Arithmetic
  import opened Octets
  import opened Options

  const H4_ACL: byte := 0x02
  const MAX_PAYLOAD := 65526
  const RELAY_BUFFER := 4096

  datatype Frame = Frame(handle: nat, cid: nat, payload: seq<byte>)

  /** What the source asks of its callers: all sizes fit the sixteen bit fields. */
  predicate Sendable(f: Frame) {
    f.handle < 0x1_0000 && f.cid < 0x1_0000 && |f.payload| <= MAX_PAYLOAD
  }

  /** The two headers behind the packet type. */
  function Headers(handleWord: nat, f: Frame): (h: seq<byte>)
    ensures |h| == 8
  {
    Le16(handleWord) + Le16(|f.payload| + 4) + Le16(|f.payload|) + Le16(f.cid)
  }

  /** The packet the host puts on the wire; the flags in the upper handle bits are zero. */
  function SendAcl(f: Frame): seq<byte> {
    [H4_ACL] + Headers(f.handle % 0x1000, f) + f.payload
  }

  function HandleWord(data: seq<byte>): nat
    requires |data| >= 8
  {
    Value16(data)
  }

  function AclLength(data: seq<byte>): nat
    requires |data| >= 8
  {
    Value16(data[2..4])
  }

  function L2capLength(data: seq<byte>): nat
    requires |data| >= 8
  {
    Value16(data[4..6])
  }

  /** What is handed on to the channel, for a packet without its type byte. */
  function ProcessAcl(handles: seq<nat>, data: seq<byte>): Option<Frame> {
    if |data| < 8 then None
    else if |data| != 4 + AclLength(data) then None
    else if HandleWord(data) % 0x1000 !in handles then None
    else if |data| - 4 != 4 + L2capLength(data) then None
    else Some(Frame(HandleWord(data) % 0x1000, Value16(data[6..8]), data[8..]))
  }

  // ---------------------------------------------------------------- laws

  /** A packet is accepted exactly when both length fields agree with its length and the connection
      is known. */
  lemma AcceptedIff(handles: seq<nat>, data: seq<byte>)
    ensures ProcessAcl(handles, data).Some? <==>
            |data| >= 8 && |data| == 4 + Value16(data[2..4]) == 8 + Value16(data[4..6])
            && Value16(data[..2]) % 0x1000 in handles
    ensures ProcessAcl(handles, data).Some? ==>
            ProcessAcl(handles, data).value ==
            Frame(Value16(data[..2]) % 0x1000, Value16(data[6..8]), data[8..])
  {
  }

  lemma HeadersRead(handleWord: nat, f: Frame)
    requires handleWord < 0x1_0000 && Sendable(f)
    ensures var data := Headers(handleWord, f) + f.payload;
            && HandleWord(data) == handleWord && AclLength(data) == |f.payload| + 4
            && L2capLength(data) == |f.payload| && Value16(data[6..8]) == f.cid && data[8..] == f.payload
  {
    var data := Headers(handleWord, f) + f.payload;
    LeValue16(handleWord);
    LeValue16(|f.payload| + 4);
    LeValue16(|f.payload|);
    LeValue16(f.cid);
    assert data[..2] == Le16(handleWord);
    assert data[2..4] == Le16(|f.payload| + 4);
    assert data[4..6] == Le16(|f.payload|);
    assert data[6..8] == Le16(f.cid);
  }

  /** The packet on the wire, by its offsets behind the type byte: the handle's twelve bits, the two
      lengths, the channel and the payload. */
  lemma PacketBytes(f: Frame)
    requires Sendable(f)
    ensures SendAcl(f)[0] == 0x02
    ensures var data := SendAcl(f)[1..];
            && |data| == |f.payload| + 8
            && Value16(data[..2]) == f.handle % 0x1000 && Value16(data[2..4]) == |f.payload| + 4
            && Value16(data[4..6]) == |f.payload| && Value16(data[6..8]) == f.cid && data[8..] == f.payload
  {
    var data := Headers(f.handle % 0x1000, f) + f.payload;
    assert SendAcl(f)[1..] == data;
    HeadersRead(f.handle % 0x1000, f);
  }

  /** Whatever the host sends on a connection the other side knows is taken apart into the same
      channel and payload, and the same handle as far as its twelve bits reach. */
  lemma SendThenProcess(handles: seq<nat>, f: Frame)
    requires Sendable(f) && f.handle % 0x1000 in handles
    ensures ProcessAcl(handles, SendAcl(f)[1..]) == Some(f.(handle := f.handle % 0x1000))
  {
    assert SendAcl(f)[1..] == Headers(f.handle % 0x1000, f) + f.payload;
    HeadersRead(f.handle % 0x1000, f);
  }

  lemma SendThenProcessSmall(handles: seq<nat>, f: Frame)
    requires Sendable(f) && f.handle < 0x1000 && f.handle in handles
    ensures SendAcl(f) != [] && ProcessAcl(handles, SendAcl(f)[1..]) == Some(f)
  {
    ResidueUnique(f.handle, 0, f.handle, 0x1000);
    SendThenProcess(handles, f);
  }

  /** The relay between host and controller reads a packet into a buffer; the rest of a longer one is lost. */
  function Relayed(packet: seq<byte>): seq<byte> {
    if |packet| <= RELAY_BUFFER then packet else packet[..RELAY_BUFFER]
  }

  /** Relayed to a controller and on to the other host a frame comes through exactly if its packet fits the
      buffer; a longer one is turned away, since its length fields tell that some of it is missing. */
  lemma RelayedIff(handles: seq<nat>, f: Frame)
    requires Sendable(f) && f.handle % 0x1000 in handles
    ensures var data := Relayed(Relayed(SendAcl(f)))[1..];
            ProcessAcl(handles, data) ==
            if |f.payload| + 9 <= RELAY_BUFFER then Some(f.(handle := f.handle % 0x1000)) else None
  {
    if |SendAcl(f)| <= RELAY_BUFFER {
      SendThenProcess(handles, f);
    } else {
      var all := Headers(f.handle % 0x1000, f) + f.payload;
      HeadersRead(f.handle % 0x1000, f);
      assert SendAcl(f) == [H4_ACL] + all;
      assert Relayed(SendAcl(f))[1..] == all[..RELAY_BUFFER - 1];
      assert all[..RELAY_BUFFER - 1][2..4] == all[2..4];
    }
  }

  /** Conversely, an accepted packet is byte for byte what sending its frame would have produced,
      up to the flag bits beside the handle. */
  lemma ProcessThenSend(handles: seq<nat>, data: seq<byte>)
    requires ProcessAcl(handles, data).Some?
    ensures var f := ProcessAcl(handles, data).value;
            && Sendable(f) == (|f.payload| <= MAX_PAYLOAD)
            && data == Headers(HandleWord(data), f) + f.payload
            && (HandleWord(data) < 0x1000 ==> [H4_ACL] + data == SendAcl(f))
  {
    var f := ProcessAcl(handles, data).value;
    assert data[..2] == Le16(HandleWord(data)) by { ValueLe(data[..2]); }
    assert data[2..4] == Le16(|f.payload| + 4) by { ValueLe(data[2..4]); }
    assert data[4..6] == Le16(|f.payload|) by { ValueLe(data[4..6]); }
    assert data[6..8] == Le16(f.cid) by { ValueLe(data[6..8]); }
    assert data == data[..2] + data[2..4] + data[4..6] + data[6..8] + data[8..];
    if HandleWord(data) < 0x1000 {
      ResidueUnique(HandleWord(data), 0, HandleWord(data), 0x1000);
      assert [H4_ACL] + data == [H4_ACL] + Headers(HandleWord(data), f) + f.payload;
    }
  }

  /** Two frames for different channels, handles or payloads never share a packet. */
  lemma SendInjective(f: Frame, g: Frame)
    requires Sendable(f) && Sendable(g) && f.handle < 0x1000 && g.handle < 0x1000
    ensures SendAcl(f) == SendAcl(g) <==> f == g
  {
    var handles := [f.handle, g.handle];
    ResidueUnique(f.handle, 0, f.handle, 0x1000);
    ResidueUnique(g.handle, 0, g.handle, 0x1000);
    SendThenProcess(handles, f);
    SendThenProcess(handles, g);
  }

  // ---------------------------------------------------------------- as the source does it

  /** Builds the packet in a buffer of its own. */
  method BuildAcl(handle: nat, cid: nat, data: seq<byte>) returns (packet: array<byte>)
    requires Sendable(Frame(handle, cid, data))
    ensures fresh(packet) && packet[..] == SendAcl(Frame(handle, cid, data))
  {
    var len := |data|;
    var pktLen := 1 + 4 + 4 + len;
    packet := new byte[pktLen];
    packet[0] := H4_ACL;
    var word := handle % 0x1000;
    packet[1], packet[2] := word % 256, word / 256 % 256;
    packet[3], packet[4] := (len + 4) % 256, (len + 4) / 256 % 256;
    packet[7], packet[8] := cid % 256, cid / 256 % 256;
    packet[5], packet[6] := len % 256, len / 256 % 256;
    ghost var head := [H4_ACL] + Headers(word, Frame(handle, cid, data));
    assert packet[..9] == head;
    var i := 0;
    while i < len
      invariant i <= len && packet[..9] == head && packet[9..9 + i] == data[..i]
    {
      packet[9 + i] := data[i];
      i := i + 1;
    }
    assert packet[..] == packet[..9] + packet[9..9 + len];
  }

  method CheckAcl(handles: seq<nat>, data: seq<byte>) returns (frame: Option<Frame>)
    ensures frame == ProcessAcl(handles, data)
  {
    if |data| < 8 { return None; }
    if |data| != 4 + Value16(data[2..4]) { return None; }
    var handle := Value16(data) % 0x1000;
    var i := 0;
    while i < |handles| && handles[i] != handle
      invariant i <= |handles| && handle !in handles[..i]
    {
      i := i + 1;
    }
    if i == |handles| { return None; }
    if |data| - 4 != 4 + Value16(data[4..6]) { return None; }
    return Some(Frame(handle, Value16(data[6..8]), data[8..]));
  }
}
