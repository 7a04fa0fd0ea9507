/** Packets of the fingerprint sensor (FingerprintManager.cpp): building a command, finding a reply in what the UART
    delivered, and the template packets of upload and download. */
module SensorFrames {
  import opened Wrappers

  type Byte = b: int | 0 <= b < 256
  type Bytes = seq<Byte>

  const HEADER1: Byte := 0xEF
  const HEADER2: Byte := 0x01
  const COMMAND_PACKET: Byte := 0x01
  const END_PACKET: Byte := 0x08
  const PACKET_SIZE := 256  // the C buffers
  const MIN_REPLY := 12
  const MAX_PACKETS := 20

  // ---------- Packet layout ----------

  /** The sum of the bytes in 16 bits. */
  function Checksum(s: Bytes): (c: nat)
    ensures c < 0x10000
  {
    if s == [] then 0 else (Checksum(s[..|s| - 1]) + s[|s| - 1]) % 0x10000
  }

  /** The two bytes of a 16-bit number, high byte first. */
  function BigEndian(n: nat): (s: Bytes)
    requires n < 0x10000
    ensures |s| == 2 && s[0] as int * 256 + s[1] == n
  {
    [n / 256, n % 256]
  }

  /** The length field of a packet: payload and checksum, in 16 bits. */
  function LengthField(payload: Bytes): (n: nat)
    ensures n < 0x10000
  {
    (|payload| + 2) % 0x10000
  }

  /** A packet: header, four address bytes, type, 16-bit length, payload and the checksum of everything from the type on.
      The length counts the payload and the two checksum bytes. */
  function Packet(kind: Byte, payload: Bytes): (p: Bytes)
    ensures |p| == 9 + |payload| + 2
    ensures p[0] == HEADER1 && p[1] == HEADER2 && p[6] == kind
    ensures p[7] as int * 256 + p[8] == LengthField(payload)
    ensures p[9..9 + |payload|] == payload
  {
    var body := [kind] + BigEndian(LengthField(payload)) + payload;
    [HEADER1, HEADER2, 0, 0, 0, 0] + body + BigEndian(Checksum(body))
  }

  /** The packet of a command with its data. */
  function CommandPacket(cmd: Byte, data: Bytes): Bytes {
    Packet(COMMAND_PACKET, [cmd] + data)
  }

  lemma ChecksumSnoc(s: Bytes, b: Byte)
    ensures Checksum(s + [b]) == (Checksum(s) + b) % 0x10000
  {
    assert (s + [b])[..|s|] == s;
  }

  /** The sum of the bytes, without any bound. */
  function Sum(s: Bytes): nat {
    if s == [] then 0 else s[0] + Sum(s[1..])
  }

  lemma {:induction false} SumConcat(a: Bytes, b: Bytes)
    ensures Sum(a + b) == Sum(a) + Sum(b)
  {
    if a == [] {
      assert a + b == b;
    } else {
      assert (a + b)[1..] == a[1..] + b;
      SumConcat(a[1..], b);
    }
  }

  /** Adding in 16 bits gives the sum modulo 2^16. */
  lemma {:induction false} ChecksumIsSum(s: Bytes)
    ensures Checksum(s) == Sum(s) % 0x10000
  {
    if s != [] {
      var front, last := s[..|s| - 1], s[|s| - 1];
      ChecksumIsSum(front);
      SumConcat(front, [last]);
      assert front + [last] == s && Sum([last]) == last;
    }
  }

  /** The sum of everything from the type of a packet to the end of its payload. */
  function PacketSum(kind: Byte, payload: Bytes): nat {
    var length := (|payload| + 2) % 0x10000;
    kind + length / 256 + length % 256 + Sum(payload)
  }

  /** All bytes of a packet. */
  lemma PacketBytes(kind: Byte, payload: Bytes)
    ensures
      var p, n := Packet(kind, payload), |payload|;
      && |p| == n + 11 && p[..7] == [0xEF, 0x01, 0x00, 0x00, 0x00, 0x00, kind]
      && 256 * p[7] as int + p[8] == (n + 2) % 0x10000
      && p[9..9 + n] == payload
      && p[9 + n..] == BigEndian(PacketSum(kind, payload) % 0x10000)
  {
    var length := BigEndian(LengthField(payload));
    var body := [kind] + length + payload;
    SumConcat([kind] + length, payload);
    assert Sum([kind] + length) == kind + length[0] + length[1] by {
      assert [kind] + length == [kind, length[0], length[1]];
      assert Sum([length[0], length[1]]) == length[0] + Sum([length[1]]);
      assert [kind, length[0], length[1]][1..] == [length[0], length[1]];
      assert [length[0], length[1]][1..] == [length[1]] && [length[1]][1..] == [];
    }
    ChecksumIsSum(body);
    assert Packet(kind, payload)[9 + |payload|..] == BigEndian(Checksum(body));
  }

  /** GetImage, the command that polls for a finger, as it goes over the wire. */
  lemma GetImageBytes()
    ensures CommandPacket(0x01, []) == [0xEF, 0x01, 0x00, 0x00, 0x00, 0x00, 0x01, 0x00, 0x03, 0x01, 0x00, 0x05]
  {
    PacketBytes(0x01, [0x01]);
    assert [0x01] + [] == [0x01];
    assert Sum([0x01]) == 1 + Sum([0x01][1..]);
    var p := CommandPacket(0x01, []);
    assert p[7] == 0 && p[8] == 3;
    assert p[9..10] == [0x01] && p[10..] == [0x00, 0x05];
    assert p == p[..7] + [p[7], p[8]] + p[9..10] + p[10..];
  }

  /** sendCommand builds the packet byte by byte. The buffer holds 256 bytes, twelve of which are not data. */
  method BuildCommand(cmd: Byte, data: Bytes) returns (packet: array<Byte>, idx: nat)
    requires |data| <= PACKET_SIZE - 12
    ensures fresh(packet) && packet.Length == PACKET_SIZE && idx == 12 + |data|
    ensures packet[..idx] == CommandPacket(cmd, data)
  {
    packet := new Byte[PACKET_SIZE](i => 0);
    WriteHeader(packet, COMMAND_PACKET, (3 + |data|) % 0x10000);
    CopyInto(packet, 9, [cmd]);
    assert packet[..10] == packet[..9] + [cmd];
    CopyInto(packet, 10, data);
    idx := 10 + |data|;
    assert packet[..idx] == Header(COMMAND_PACKET, LengthField([cmd] + data)) + ([cmd] + data);
    AppendChecksum(packet, idx);
    PacketSplit(COMMAND_PACKET, [cmd] + data, packet[..idx]);
    idx := idx + 2;
  }

  /** The nine bytes in front of the payload. */
  function Header(kind: Byte, length: nat): Bytes
    requires length < 0x10000
  {
    [HEADER1, HEADER2, 0, 0, 0, 0] + ([kind] + BigEndian(length))
  }

  method WriteHeader(packet: array<Byte>, kind: Byte, length: nat)
    requires packet.Length >= 9 && length < 0x10000
    modifies packet
    ensures packet[..9] == Header(kind, length)
  {
    packet[0], packet[1] := 0xEF, 0x01;
    packet[2], packet[3], packet[4], packet[5] := 0x00, 0x00, 0x00, 0x00;
    packet[6] := kind;
    packet[7], packet[8] := length / 256, length % 256;
  }

  /** The packet up to its checksum, followed by the checksum of everything from index 6 on, is the packet. */
  lemma PacketSplit(kind: Byte, payload: Bytes, s: Bytes)
    requires s == Header(kind, LengthField(payload)) + payload
    ensures s + BigEndian(Checksum(s[6..])) == Packet(kind, payload)
  {
    assert s[6..] == [kind] + BigEndian(LengthField(payload)) + payload;
  }

  method AppendChecksum(packet: array<Byte>, idx: nat)
    requires 6 <= idx <= packet.Length - 2
    modifies packet
    ensures packet[..idx] == old(packet[..idx])
    ensures packet[..idx + 2] == packet[..idx] + BigEndian(Checksum(packet[..idx][6..]))
  {
    var checksum := SumFrom6(packet, idx);
    assert packet[..idx][6..] == packet[6..idx];
    packet[idx], packet[idx + 1] := checksum / 256, checksum % 256;
  }

  /** memcpy of data to the position at. */
  method CopyInto(packet: array<Byte>, at: nat, data: Bytes)
    requires at + |data| <= packet.Length
    modifies packet
    ensures packet[..] == old(packet[..at]) + data + old(packet[at + |data|..])
  {
    var i := 0;
    while i < |data|
      invariant 0 <= i <= |data|
      invariant packet[..] == old(packet[..at]) + data[..i] + old(packet[at + i..])
    {
      packet[at + i] := data[i];
      i := i + 1;
    }
    assert data[..|data|] == data;
  }

  /** The checksum loop: 16-bit additions of the bytes from index 6 on. */
  method SumFrom6(packet: array<Byte>, idx: nat) returns (checksum: nat)
    requires 6 <= idx <= packet.Length
    ensures checksum == Checksum(packet[6..idx])
  {
    checksum := 0;
    var i := 6;
    while i < idx
      invariant 6 <= i <= idx
      invariant checksum == Checksum(packet[6..i])
    {
      assert packet[6..i + 1] == packet[6..i] + [packet[i]];
      ChecksumSnoc(packet[6..i], packet[i]);
      checksum := (checksum + packet[i]) % 0x10000;
      i := i + 1;
    }
  }

  // ---------- Receiving a reply ----------

  predicate HeaderAt(s: Bytes, i: nat) {
    i + 1 < |s| && s[i] == HEADER1 && s[i + 1] == HEADER2
  }

  /** The lowest index from `from` to limit - 1 that holds a header, or limit. */
  function FirstHeader(s: Bytes, limit: nat, from: nat := 0): (h: nat)
    requires from <= limit
    ensures from <= h <= limit && (h < limit ==> HeaderAt(s, h))
    ensures forall i | from <= i < h :: !HeaderAt(s, i)
    decreases limit - from
  {
    if from == limit || HeaderAt(s, from) then from else FirstHeader(s, limit, from + 1)
  }

  /** What receiveResponse leaves in the buffer after a read of the bytes s: everything from the confirmation code of
      the first packet on, None when the read is too short or holds no header early enough. */
  function Reply(s: Bytes): (r: Option<Bytes>)
    ensures r.Some? ==> |r.value| >= 3
  {
    if |s| < MIN_REPLY then None
    else
      var h := FirstHeader(s, |s| - MIN_REPLY + 1);
      if h > |s| - MIN_REPLY then None else Some(s[h + 9..])
  }

  /** Without a header that has twelve bytes from its place on there is no reply; else it is what stands nine bytes
      behind the start of the first one. */
  lemma ReplyFinds(s: Bytes, h: nat)
    requires forall i | 0 <= i < h :: !HeaderAt(s, i)
    ensures h + 12 > |s| ==> Reply(s) == None
    ensures HeaderAt(s, h) && h + 12 <= |s| ==> Reply(s) == Some(s[h + 9..])
  {
  }

  method ReceiveResponse(response: array<Byte>, read: nat) returns (ok: bool, bytesReceived: nat)
    requires read <= response.Length
    modifies response
    ensures ok == Reply(old(response[..read])).Some?
    ensures ok ==> bytesReceived <= response.Length && response[..bytesReceived] == Reply(old(response[..read])).value
    ensures ok ==> 3 <= bytesReceived < read
  {
    ghost var s := response[..read];
    bytesReceived := read;
    if bytesReceived < MIN_REPLY {
      return false, bytesReceived;
    }
    var headerIdx := FindReplyHeader(response, read);
    if headerIdx > bytesReceived - MIN_REPLY {
      return false, bytesReceived;
    }
    MoveToFront(response, read, headerIdx + 9);
    return true, bytesReceived - headerIdx - 9;
  }

  /** The header search of receiveResponse. */
  method FindReplyHeader(response: array<Byte>, read: nat) returns (headerIdx: nat)
    requires MIN_REPLY <= read <= response.Length
    ensures headerIdx == FirstHeader(response[..read], read - MIN_REPLY + 1)
  {
    headerIdx := 0;
    while headerIdx <= read - MIN_REPLY && !(response[headerIdx] == 0xEF && response[headerIdx + 1] == 0x01)
      invariant headerIdx <= read - MIN_REPLY + 1
      invariant FirstHeader(response[..read], read - MIN_REPLY + 1)
                == FirstHeader(response[..read], read - MIN_REPLY + 1, headerIdx)
    {
      headerIdx := headerIdx + 1;
    }
  }

  /** memmove: what stands from a position on comes to the front of the buffer. */
  method MoveToFront(response: array<Byte>, read: nat, from: nat)
    requires from <= read <= response.Length
    modifies response
    ensures response[..read - from] == old(response[from..read])
  {
    ghost var s := response[..read];
    for j := 0 to read - from
      invariant response[..j] == s[from..from + j]
      invariant forall k | j <= k < read :: response[k] == s[k]
    {
      response[j] := response[from + j];
    }
    assert s[from..read] == old(response[from..read]);
  }

  /** Whatever noise precedes a packet, the receiver recovers the command, the data and the checksum field exactly when
      no two adjacent noise bytes look like a header. */
  lemma FramingRoundTrip(noise: Bytes, cmd: Byte, data: Bytes)
    ensures
      Reply(noise + CommandPacket(cmd, data))
      == Some([cmd] + data + BigEndian(PacketSum(COMMAND_PACKET, [cmd] + data) % 0x10000))
      <==> forall i | 0 <= i < |noise| - 1 :: !HeaderAt(noise, i)
  {
    var p := CommandPacket(cmd, data);
    var s := noise + p;
    var limit := |s| - MIN_REPLY + 1;
    var payload := [cmd] + data + BigEndian(PacketSum(COMMAND_PACKET, [cmd] + data) % 0x10000);
    PacketBytes(COMMAND_PACKET, [cmd] + data);
    assert p[9..] == p[9..9 + |[cmd] + data|] + p[9 + |[cmd] + data|..];
    assert p[9..] == payload;
    assert s[|noise| + 9..] == p[9..];
    assert HeaderAt(s, |noise|);
    assert |noise| < limit;
    assert forall i | 0 <= i < |noise| :: HeaderAt(s, i) <==> HeaderAt(noise, i);
    var h := FirstHeader(s, limit);
    assert h <= |noise|;
    assert Reply(s) == Some(s[h + 9..]);
    assert |s[h + 9..]| == |payload| ==> h == |noise|;
  }

  // ---------- Templates ----------

  /** The packet that uploadTemplateToSensor writes. */
  method BuildTemplatePacket(templateData: Bytes) returns (packet: array<Byte>)
    ensures fresh(packet) && packet[..] == Packet(END_PACKET, templateData)
  {
    var size := |templateData|;
    packet := new Byte[9 + size + 2](i => 0);
    WriteHeader(packet, END_PACKET, (size + 2) % 0x10000);
    CopyInto(packet, 9, templateData);
    assert packet[..9 + size] == Header(END_PACKET, LengthField(templateData)) + templateData;
    AppendChecksum(packet, 9 + size);
    PacketSplit(END_PACKET, templateData, packet[..9 + size]);
    assert packet[..] == packet[..9 + size + 2];
  }

  /** A read of the download loop: at least one byte, at most what the buffer holds. */
  type Read = s: Bytes | 1 <= |s| <= PACKET_SIZE witness [0]

  datatype Frame = Frame(kind: Byte, payload: Bytes)

  /** What the download loop makes of one read: the type of the first packet in it, and its payload when all of it was
      read. */
  function Parse(s: Bytes): Option<Frame>
    requires |s| >= 1
  {
    var h := FirstHeader(s, |s| - 1);
    if h == |s| - 1 || h + 9 > |s| then None
    else
      var dataLen := s[h + 7] as int * 256 + s[h + 8] - 2;
      Some(Frame(s[h + 6], if h + 9 + dataLen <= |s| && dataLen > 0 then s[h + 9..h + 9 + dataLen] else []))
  }

  method FindHeader(packet: Read) returns (headerIdx: nat)
    ensures headerIdx == FirstHeader(packet, |packet| - 1)
  {
    headerIdx := 0;
    while headerIdx < |packet| - 1 && !(packet[headerIdx] == 0xEF && packet[headerIdx + 1] == 0x01)
      invariant 0 <= headerIdx <= |packet| - 1
      invariant FirstHeader(packet, |packet| - 1) == FirstHeader(packet, |packet| - 1, headerIdx)
    {
      headerIdx := headerIdx + 1;
    }
  }

  method ParsePacket(packet: Read) returns (r: Option<Frame>)
    ensures r == Parse(packet)
  {
    var bytes := |packet|;
    var headerIdx := FindHeader(packet);
    if headerIdx == bytes - 1 || headerIdx + 9 > bytes {
      return None;
    }
    var packetLen := packet[headerIdx + 7] as int * 256 + packet[headerIdx + 8];
    var dataStart, dataLen := headerIdx + 9, packetLen - 2;
    if dataStart + dataLen <= bytes && dataLen > 0 {
      return Some(Frame(packet[headerIdx + 6], packet[dataStart..dataStart + dataLen]));
    }
    return Some(Frame(packet[headerIdx + 6], []));
  }

  /** The download loop after `count` packets, with the data collected so far: the template, or None. */
  function Download(uart: nat -> Read, count: nat, templateData: Bytes): Option<Bytes>
    decreases MAX_PACKETS - count
  {
    if count >= MAX_PACKETS then None
    else
      match Parse(uart(count))
      case None => None
      case Some(frame) =>
        var all := templateData + frame.payload;
        if frame.kind != END_PACKET then Download(uart, count + 1, all)
        else if all == [] then None
        else Some(all)
  }

  method DownloadPackets(uart: nat -> Read) returns (ok: bool, templateData: Bytes)
    ensures ok <==> Download(uart, 0, []).Some?
    ensures ok ==> templateData == Download(uart, 0, []).value
  {
    templateData := [];
    var packetCount := 0;
    var endPacketReceived := false;
    while packetCount < MAX_PACKETS && !endPacketReceived
      invariant 0 <= packetCount <= MAX_PACKETS && !endPacketReceived
      invariant Download(uart, 0, []) == Download(uart, packetCount, templateData)
    {
      var frame := ParsePacket(uart(packetCount));
      if frame == None {
        break;
      }
      templateData := templateData + frame.value.payload;
      if frame.value.kind == END_PACKET {
        endPacketReceived := true;
        break;
      }
      packetCount := packetCount + 1;
    }
    if !endPacketReceived {
      return false, templateData;
    }
    return templateData != [], templateData;
  }

  /** What is made of any read: without a header, or with one too near its end, nothing; else the type behind the first
      header and as many bytes as its length field says, if all of them were read. */
  lemma ParseFinds(s: Read, h: nat)
    requires forall i | 0 <= i < h :: !HeaderAt(s, i)
    ensures !HeaderAt(s, h) && h >= |s| - 1 ==> Parse(s) == None
    ensures HeaderAt(s, h) && h + 9 > |s| ==> Parse(s) == None
    ensures HeaderAt(s, h) && h + 9 <= |s| ==>
      var length := 256 * s[h + 7] as int + s[h + 8] - 2;
      Parse(s) == Some(Frame(s[h + 6], if 0 < length <= |s| - h - 9 then s[h + 9..h + 9 + length] else []))
  {
  }

  /** The payloads of the first n reads. */
  function Payloads(uart: nat -> Read, n: nat): Bytes {
    if n == 0 then []
    else Payloads(uart, n - 1) + match Parse(uart(n - 1)) case None => [] case Some(frame) => frame.payload
  }

  /** The first n reads are packets before the last one. */
  ghost predicate Continuing(uart: nat -> Read, n: nat) {
    forall i | 0 <= i < n :: Parse(uart(i)).Some? && Parse(uart(i)).value.kind != END_PACKET
  }

  /** The read number n ends the download. */
  ghost predicate EndsAt(uart: nat -> Read, n: nat) {
    Continuing(uart, n) && Parse(uart(n)).Some? && Parse(uart(n)).value.kind == END_PACKET
  }

  /** The reads that a download ends with, from the read number count on. */
  ghost predicate Gives(uart: nat -> Read, count: nat, n: int, t: Bytes) {
    count <= n < MAX_PACKETS && EndsAt(uart, n) && t == Payloads(uart, n + 1) != []
  }

  ghost predicate Given(uart: nat -> Read, count: nat, t: Bytes) {
    exists n :: Gives(uart, count, n, t)
  }

  lemma {:induction false} DownloadFrom(uart: nat -> Read, count: nat, t: Bytes)
    requires count <= MAX_PACKETS && Continuing(uart, count)
    ensures Download(uart, count, Payloads(uart, count)) == Some(t) <==> Given(uart, count, t)
    decreases MAX_PACKETS - count
  {
    if count < MAX_PACKETS {
      OneMoreRead(uart, count, t);
      if Parse(uart(count)).Some? && Parse(uart(count)).value.kind != END_PACKET {
        DownloadFrom(uart, count + 1, t);
      }
    }
  }

  lemma OneMoreRead(uart: nat -> Read, count: nat, t: Bytes)
    requires count < MAX_PACKETS && Continuing(uart, count)
    ensures
      var parsed := Parse(uart(count));
      if parsed == None then !Given(uart, count, t)
      else if parsed.value.kind == END_PACKET then
        (Given(uart, count, t) <==> t == Payloads(uart, count + 1) != [])
      else Continuing(uart, count + 1) && (Given(uart, count, t) <==> Given(uart, count + 1, t))
  {
    var parsed := Parse(uart(count));
    forall n | Gives(uart, count, n, t)
      ensures parsed.Some? && (if parsed.value.kind == END_PACKET then n == count else Gives(uart, count + 1, n, t))
    {
    }
    if parsed.Some? && parsed.value.kind == END_PACKET {
      assert Gives(uart, count, count, t) <==> t == Payloads(uart, count + 1) != [];
    } else if parsed.Some? && Given(uart, count + 1, t) {
      var n :| Gives(uart, count + 1, n, t);
      assert Gives(uart, count, n, t);
    }
  }

  /** Whatever the UART delivers, a download gives a template exactly when one of the first 20 reads is an end packet, all
      reads before it are other packets, and there are data in them, which are the template. */
  lemma DownloadIff(uart: nat -> Read, t: Bytes)
    ensures
      Download(uart, 0, []) == Some(t) <==>
      exists n :: 0 <= n < 20 && EndsAt(uart, n) && t == Payloads(uart, n + 1) != []
  {
    DownloadFrom(uart, 0, t);
    forall n ensures Gives(uart, 0, n, t) <==> 0 <= n < 20 && EndsAt(uart, n) && t == Payloads(uart, n + 1) != [] {
    }
  }

  /** What one read delivers of a packet. */
  function FirstRead(p: Bytes): (s: Read)
    requires p != []
  {
    if |p| <= PACKET_SIZE then p else p[..PACKET_SIZE]
  }

  /** The payload that the loop finds in a packet whose payload is p: the length field is taken modulo 2^16, and
      nothing is found unless that many bytes lie within the buffer. */
  function Found(p: Bytes): Bytes {
    if |p| % 0x10000 <= PACKET_SIZE - 9 then p[..|p| % 0x10000] else []
  }

  lemma LengthFieldIs(p: Bytes)
    ensures LengthField(p) - 2 == |p| % 0x10000 || (LengthField(p) < 2 && |p| % 0x10000 > PACKET_SIZE)
    ensures |p| % 0x10000 <= PACKET_SIZE ==> LengthField(p) - 2 == |p| % 0x10000
    ensures |p| % 0x10000 <= |p|
  {
  }

  lemma PayloadPrefix(kind: Byte, p: Bytes, k: nat)
    requires k <= |p| && 9 + k <= |FirstRead(Packet(kind, p))|
    ensures FirstRead(Packet(kind, p))[9..9 + k] == p[..k]
  {
    assert Packet(kind, p)[9..9 + k] == Packet(kind, p)[9..9 + |p|][..k];
  }

  lemma ParsedPacket(kind: Byte, p: Bytes)
    ensures Parse(FirstRead(Packet(kind, p))) == Some(Frame(kind, Found(p)))
  {
    var packet := Packet(kind, p);
    var s := FirstRead(packet);
    assert HeaderAt(s, 0) && FirstHeader(s, |s| - 1) == 0;
    assert s[6] == kind && s[7] == packet[7] && s[8] == packet[8];
    LengthFieldIs(p);
    var dataLen := LengthField(p) - 2;
    if 0 < dataLen && 9 + dataLen <= |s| {
      PayloadPrefix(kind, p, dataLen);
    }
  }

  /** Reading an uploaded template back, for templates of any size. */
  lemma DownloadOfUpload(t: Bytes, uart: nat -> Read)
    requires uart(0) == FirstRead(Packet(END_PACKET, t))
    ensures Download(uart, 0, []) == if Found(t) == [] then None else Some(Found(t))
  {
    ParsedPacket(END_PACKET, t);
    assert [] + Found(t) == Found(t);
  }

  lemma FoundAll(p: Bytes)
    ensures Found(p) == p <==> |p| <= PACKET_SIZE - 9
  {
    if |p| <= PACKET_SIZE - 9 {
      assert |p| % 0x10000 == |p| && p[..|p|] == p;
    } else {
      assert |Found(p)| < |p|;
    }
  }

  /** The template comes back exactly when it has 1 to 247 bytes. */
  lemma TemplateRoundTrip(t: Bytes, uart: nat -> Read)
    requires uart(0) == FirstRead(Packet(END_PACKET, t))
    ensures Download(uart, 0, []) == Some(t) <==> 1 <= |t| <= PACKET_SIZE - 9
  {
    DownloadOfUpload(t, uart);
    FoundAll(t);
  }

  /** A template of 65537 to 65783 bytes comes back cut, without any error. */
  lemma OversizedTemplateIsCut(t: Bytes, uart: nat -> Read)
    requires 0x10000 < |t| <= 0x10000 + PACKET_SIZE - 9
    requires uart(0) == FirstRead(Packet(END_PACKET, t))
    ensures Download(uart, 0, []) == Some(t[..|t| - 0x10000])
  {
    assert Found(t) == t[..|t| - 0x10000] by {
      assert |t| % 0x10000 == |t| - 0x10000;
    }
    DownloadOfUpload(t, uart);
  }

  /** sofar followed by the payloads of frames, in order. */
  function Collected(sofar: Bytes, frames: seq<Frame>): Bytes
    decreases |frames|
  {
    if frames == [] then sofar else Collected(sofar + frames[0].payload, frames[1..])
  }

  /** From the given read on, the UART delivers these frames, each small enough to fit a read: data packets and then one
      end packet. */
  ghost predicate Delivers(uart: nat -> Read, count: nat, frames: seq<Frame>)
    decreases |frames|
  {
    && frames != []
    && |frames[0].payload| <= PACKET_SIZE - 9
    && uart(count) == FirstRead(Packet(frames[0].kind, frames[0].payload))
    && (if |frames| == 1 then frames[0].kind == END_PACKET
        else frames[0].kind != END_PACKET && Delivers(uart, count + 1, frames[1..]))
  }

  lemma DownloadStep(uart: nat -> Read, count: nat, sofar: Bytes, frame: Frame)
    requires count < MAX_PACKETS && |frame.payload| <= PACKET_SIZE - 9
    requires uart(count) == FirstRead(Packet(frame.kind, frame.payload))
    ensures
      var all := sofar + frame.payload;
      Download(uart, count, sofar) ==
      if frame.kind != END_PACKET then Download(uart, count + 1, all) else if all == [] then None else Some(all)
  {
    ParsedPacket(frame.kind, frame.payload);
    FoundAll(frame.payload);
  }

  lemma {:induction false} DownloadContinues(uart: nat -> Read, count: nat, sofar: Bytes, frames: seq<Frame>)
    requires count <= MAX_PACKETS && Delivers(uart, count, frames)
    ensures
      Download(uart, count, sofar) ==
      if count + |frames| > MAX_PACKETS || Collected(sofar, frames) == [] then None else Some(Collected(sofar, frames))
    decreases |frames|
  {
    if count < MAX_PACKETS {
      DownloadStep(uart, count, sofar, frames[0]);
      var all := sofar + frames[0].payload;
      if |frames| > 1 {
        DownloadContinues(uart, count + 1, all, frames[1..]);
      } else {
        assert Collected(all, []) == all;
      }
    }
  }

  /** Data packets followed by an end packet are put together in order exactly when there are at most 20 packets with
      some data in them; otherwise the download fails. */
  lemma DownloadOfPackets(uart: nat -> Read, frames: seq<Frame>)
    requires Delivers(uart, 0, frames)
    ensures
      var all := Collected([], frames);
      Download(uart, 0, []) == if |frames| <= MAX_PACKETS && all != [] then Some(all) else None
  {
    DownloadContinues(uart, 0, [], frames);
  }
}
