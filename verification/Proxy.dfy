/**
 * The address-rewriting proxies (proxy.cc).  The proxy beside the recursive server sends
 * its queries to the one authoritative server; the proxy beside that server sends the
 * replies back.  Each turns the destination into the source, so the server can
 * tell which nameserver was meant, and the recursive server sees the reply it expects.
 */
module Proxy {
  import opened Bytes
  import opened Checksum

  type Address = s: seq<byte> | |s| == 4 witness [0, 0, 0, 0]

  const TCP: byte := 6
  const UDP: byte := 17

  // ---- Configuration ----

  datatype Configured = Running(target: Address) | Rejected

  function Configure(tunName: string, aut: Address, rec: Address, proxyType: string, threads: int): (c: Configured)
    ensures c.Running? <==> tunName != "" && threads >= 1 && proxyType in {"recursive", "authoritative"}
  {
    if tunName == "" || threads < 1 then Rejected
    else if proxyType == "recursive" then Running(aut)
    else if proxyType == "authoritative" then Running(rec)
    else Rejected
  }

  // ---- IPv4 packets ----

  // At least the fixed header, and a transport header up to its checksum field.
  predicate Packet(p: seq<byte>) {
    && 20 <= |p| < 20 + 65536
    && (p[9] == TCP ==> |p| >= 38)
    && (p[9] == UDP ==> |p| >= 28)
  }

  function Version(p: seq<byte>): nat requires |p| >= 20 { p[0] / 16 }

  function HeaderLength(p: seq<byte>): nat requires Packet(p) { p[0] % 16 * 4 }

  function Source(p: seq<byte>): Address requires Packet(p) { p[12..16] }

  function Destination(p: seq<byte>): Address requires Packet(p) { p[16..20] }

  // An IPv4 packet without options that carries TCP or UDP.
  predicate Plain(p: seq<byte>) {
    Packet(p) && Version(p) == 4 && HeaderLength(p) == 20 && (p[9] == TCP || p[9] == UDP)
  }

  function Ports(p: seq<byte>): (seq<byte>, seq<byte>)
    requires Plain(p)
  {
    (p[HeaderLength(p)..][..2], p[HeaderLength(p)..][2..4])
  }

  // Where the transport checksum sits in the segment.
  function CheckOffset(p: seq<byte>): nat
    requires Plain(p)
  {
    if p[9] == TCP then 16 else 6
  }

  // What a receiver adds up.
  predicate ChecksumHolds(p: seq<byte>)
    requires Plain(p)
  {
    AddsUp(Covered(Source(p), Destination(p), p[9], p[HeaderLength(p)..]))
  }

  // ---- The rewrite ----

  datatype Outcome =
    | Sent(packet: seq<byte>)
    | Unsupported   // IPv6: the process exits
    | Overrun       // a field beyond the end of the packet is read or written

  function Readdressed(p: seq<byte>, target: Address): (r: seq<byte>)
    requires Packet(p)
    ensures Packet(r) && |r| == |p|
  {
    Patched(p, 10, [0, 0] + p[16..20] + target)
  }

  function Resummed(p: seq<byte>, at: nat): (r: seq<byte>)
    requires Packet(p) && 20 <= at && at + 2 <= |p|
    ensures Packet(r) && |r| == |p|
  {
    var zeroed := Patched(p, at, [0, 0]);
    Patched(p, at, StoredLE(ChecksumOf(Covered(p[12..16], p[16..20], p[9], zeroed[20..]))))
  }

  function Rewrite(p: seq<byte>, target: Address): (out: Outcome)
    requires |p| < 20 + 65536
    ensures out.Sent? <==> Packet(p) && Version(p) != 6
    ensures out.Sent? ==> |out.packet| == |p|
  {
    if |p| < 20 then Overrun
    else if Version(p) == 6 then Unsupported
    else if !Packet(p) then Overrun
    else
      var q := if Version(p) == 4 then Readdressed(p, target) else p;
      if p[9] == TCP then Sent(Resummed(q, 36))
      else if p[9] == UDP then Sent(Resummed(q, 26))
      else Sent(q)
  }

  // The reader hands over at most 4096 bytes.
  method ProcessPacketHelper(original: array<byte>, target: Address) returns (out: Outcome)
    requires original.Length < 20 + 65536
    ensures out == Rewrite(original[..], target)
  {
    hide Patched, Readdressed, Resummed;
    var len := original.Length;
    var pkt := new byte[len](_ => 0);
    forall i | 0 <= i < len { pkt[i] := original[i]; }
    ghost var p := original[..];
    assert pkt[..] == p;
    if len < 20 { return Overrun; }
    if pkt[0] / 16 == 6 { return Unsupported; }
    if (pkt[9] == TCP && len < 38) || (pkt[9] == UDP && len < 28) { return Overrun; }
    ReaddressedProtocol(p, target);
    if pkt[0] / 16 == 4 {
      Readdress(pkt, target);
    }
    if pkt[9] == TCP {
      Resum(pkt, 36);
    } else if pkt[9] == UDP {
      Resum(pkt, 26);
    }
    out := Sent(pkt[..]);
  }

  // Source := destination, destination := target, header checksum left to the kernel.
  method Readdress(pkt: array<byte>, target: Address)
    requires Packet(pkt[..])
    modifies pkt
    ensures pkt[..] == Readdressed(old(pkt[..]), target)
  {
    forall i | 12 <= i < 16 { pkt[i] := pkt[i + 4]; }
    forall i | 16 <= i < 20 { pkt[i] := target[i - 16]; }
    pkt[10], pkt[11] := 0, 0;
    ghost var fields := [0, 0] + old(pkt[..])[16..20] + target;
    assert pkt[..] == Patched(old(pkt[..]), 10, fields);
  }

  lemma ReaddressedProtocol(p: seq<byte>, target: Address)
    requires Packet(p)
    ensures Readdressed(p, target)[9] == p[9]
  {
  }

  // Clear the checksum field, then fill it in.
  method Resum(pkt: array<byte>, at: nat)
    requires Packet(pkt[..]) && 20 <= at && at + 2 <= pkt.Length
    modifies pkt
    ensures pkt[..] == Resummed(old(pkt[..]), at)
  {
    pkt[at], pkt[at + 1] := 0, 0;
    assert pkt[..] == Patched(old(pkt[..]), at, [0, 0]);
    assert pkt[20..] == pkt[..][20..];
    var sum, _ := UdpTcpCksum(pkt, 20, pkt[12..16], pkt[16..20], pkt[9]);
    assert pkt[12..16] == old(pkt[..])[12..16] && pkt[16..20] == old(pkt[..])[16..20];
    pkt[at], pkt[at + 1] := sum % 256, sum / 256;
    assert pkt[..] == Patched(old(pkt[..]), at, StoredLE(sum));
  }

  // ---- What the rewrite achieves ----

  lemma ResummedHolds(p: seq<byte>)
    requires Plain(p)
    ensures var r := Resummed(p, 20 + CheckOffset(p));
            Plain(r) && ChecksumHolds(r)
  {
    hide Covered, StoredLE, ChecksumOf, AddsUp, Resummed;
    var at := CheckOffset(p);
    var segment := Patched(p, 20 + at, [0, 0])[20..];
    var r := Resummed(p, 20 + at);
    ResummedKeeps(p, 20 + at);
    ResummedSegment(p, at);
    assert Source(r) == p[12..16] && Destination(r) == p[16..20];
    InstallInSegment(p[12..16], p[16..20], p[9], segment, at);
  }

  lemma ResummedSegment(p: seq<byte>, at: nat)
    requires Packet(p) && 20 + at + 2 <= |p|
    ensures var segment := Patched(p, 20 + at, [0, 0])[20..];
            Resummed(p, 20 + at)[20..]
            == Patched(segment, at, StoredLE(ChecksumOf(Covered(p[12..16], p[16..20], p[9], segment))))
  {
    hide Covered, StoredLE, ChecksumOf;
  }

  lemma InstallInSegment(src: Address, dst: Address, protocol: byte, segment: seq<byte>, at: nat)
    requires at % 2 == 0 && at + 2 <= |segment| < 65536
    requires segment[at] == 0 && segment[at + 1] == 0
    ensures var c := StoredLE(ChecksumOf(Covered(src, dst, protocol, segment)));
            AddsUp(Covered(src, dst, protocol, Patched(segment, at, c)))
  {
    hide SumLE, Fold, StoredLE, StoredBE, ChecksumOf;
    var b := Covered(src, dst, protocol, segment);
    var c := StoredLE(ChecksumOf(b));
    InstalledAddsUp(b, 12 + at);
    assert Covered(src, dst, protocol, Patched(segment, at, c)) == Patched(b, 12 + at, c);
  }

  /**
   * Every TCP or UDP packet without IP options leaves with its old destination as source, the
   * target as destination and a checksum that holds for those addresses; ports,
   * payload and every other byte are as they were.
   */
  lemma RewriteIsSound(p: seq<byte>, target: Address)
    requires Plain(p)
    ensures Rewrite(p, target).Sent?
    ensures var r := Rewrite(p, target).packet;
            && |r| == |p| && Plain(r)
            && Source(r) == Destination(p) && Destination(r) == target
            && r[12..16] == p[16..20] && r[16..20] == target
            && r[10] == 0 && r[11] == 0
            && ChecksumHolds(r)
            && Ports(r) == Ports(p)
            && forall i :: 0 <= i < |p| && !(10 <= i < 20) && !(if p[9] == 6 then 36 <= i < 38 else 26 <= i < 28)
                 ==> r[i] == p[i]
  {
    hide Resummed, ChecksumHolds;
    var q := Readdressed(p, target);
    assert Plain(q) && q[9] == p[9];
    ResummedHolds(q);
    var r := Resummed(q, 20 + CheckOffset(q));
    ResummedKeeps(q, 20 + CheckOffset(q));
    assert r[12..16] == p[16..20] && r[16..20] == target;
    PortsKept(p, r);
  }

  lemma PortsKept(p: seq<byte>, r: seq<byte>)
    requires Plain(p) && Plain(r)
    requires r[20] == p[20] && r[21] == p[21] && r[22] == p[22] && r[23] == p[23]
    ensures Ports(r) == Ports(p)
  {
    assert r[20..][..2] == [r[20], r[21]] && r[20..][2..4] == [r[22], r[23]];
    assert p[20..][..2] == [p[20], p[21]] && p[20..][2..4] == [p[22], p[23]];
  }

  /** And for every other packet: what is sent at all, and how ICMP, other protocols and other versions than
      four leave. */
  lemma OtherPackets(p: seq<byte>, target: Address)
    requires |p| < 20 + 65536
    ensures Rewrite(p, target).Sent? <==>
              |p| >= 20 && p[0] / 16 != 6 && (p[9] == 6 ==> |p| >= 38) && (p[9] == 17 ==> |p| >= 28)
    ensures Rewrite(p, target).Unsupported? <==> |p| >= 20 && p[0] / 16 == 6
    ensures Rewrite(p, target).Sent? && p[0] / 16 == 4 && p[9] != 6 && p[9] != 17 ==>
              Rewrite(p, target).packet == p[..10] + [0, 0] + p[16..20] + target + p[20..]
    ensures Rewrite(p, target).Sent? && p[0] / 16 != 4 ==>
              && (p[9] != 6 && p[9] != 17 ==> Rewrite(p, target).packet == p)
              && |Rewrite(p, target).packet| == |p|
              && forall i :: 0 <= i < |p| && (p[9] == 6 ==> !(36 <= i < 38)) && (p[9] == 17 ==> !(26 <= i < 28))
                   ==> Rewrite(p, target).packet[i] == p[i]
  {
    hide Resummed;
    if Rewrite(p, target).Sent? {
      if p[0] / 16 == 4 {
        assert Readdressed(p, target) == p[..10] + [0, 0] + p[16..20] + target + p[20..];
      } else if p[9] == 6 {
        ResummedKeeps(p, 36);
      } else if p[9] == 17 {
        ResummedKeeps(p, 26);
      }
    }
  }

  lemma ResummedKeeps(p: seq<byte>, at: nat)
    requires Packet(p) && 20 <= at && at + 2 <= |p|
    ensures forall i :: 0 <= i < |p| && !(at <= i < at + 2) ==> Resummed(p, at)[i] == p[i]
  {
  }

  // `y` answers `q`: addresses and ports swapped, same transport; the payload is the server's.
  predicate Answers(q: seq<byte>, y: seq<byte>) {
    && Plain(q) && Plain(y) && y[9] == q[9]
    && Source(y) == Destination(q) && Destination(y) == Source(q)
    && Ports(y) == (Ports(q).1, Ports(q).0)
  }

  /**
   * The two proxies are transparent.  A query `q` to nameserver X reaches the authoritative
   * server as coming from X; whatever the server answers to that packet reaches the
   * configured recursive address as an answer from X to `q`, exactly when `q` came from there.
   */
  lemma TransparentRoundTrip(q: seq<byte>, y: seq<byte>, aut: Address, rec: Address)
    requires Plain(q)
    requires Rewrite(q, aut).Sent? && Answers(Rewrite(q, aut).packet, y)
    ensures var asked := Rewrite(q, aut).packet;
            Source(asked) == Destination(q) && Destination(asked) == aut && ChecksumHolds(asked)
    ensures Rewrite(y, rec).Sent?
    ensures var back := Rewrite(y, rec).packet;
            && Plain(back) && ChecksumHolds(back)
            && Source(back) == Destination(q) && Destination(back) == rec
            && (Answers(q, back) <==> Source(q) == rec)
  {
    hide Rewrite, ChecksumHolds;
    RewriteIsSound(q, aut);
    RewriteIsSound(y, rec);
  }

  /**
   * The same for two proxies as they are started: one of each type, with the same two server
   * addresses, whatever the tunnels and thread counts.
   */
  lemma ConfiguredProxiesTransparent(q: seq<byte>, y: seq<byte>, aut: Address, rec: Address,
                                     tun: string, threads: int, tun': string, threads': int)
    requires Configure(tun, aut, rec, "recursive", threads).Running?
    requires Configure(tun', aut, rec, "authoritative", threads').Running?
    requires Plain(q)
    requires var there := Configure(tun, aut, rec, "recursive", threads).target;
             Rewrite(q, there).Sent? && Answers(Rewrite(q, there).packet, y)
    ensures var back := Rewrite(y, Configure(tun', aut, rec, "authoritative", threads').target);
            && back.Sent? && Plain(back.packet) && ChecksumHolds(back.packet)
            && Source(back.packet) == Destination(q) && Destination(back.packet) == rec
            && (Answers(q, back.packet) <==> Source(q) == rec)
  {
    hide Rewrite, ChecksumHolds, Answers;
    TransparentRoundTrip(q, y, aut, rec);
  }

  // ---- Where the rewrite falls short ----

  // What the checksum of a rewritten UDP packet covers, its own field cleared.
  function UdpCovered(p: seq<byte>, target: Address): (r: seq<byte>)
    requires Packet(p) && p[9] == UDP
    ensures |r| % 2 == 0
  {
    Covered(p[16..20], target, UDP, Patched(p, 26, [0, 0])[20..])
  }

  /**
   * RFC 768 keeps the stored value zero for packets without a checksum and asks for 0xFFFF when the
   * computed one is zero.  The proxy stores the zero, and this happens exactly when the rest
   * already adds up.
   */
  lemma UdpChecksumZeroIff(p: seq<byte>, target: Address)
    requires Plain(p) && p[9] == UDP
    ensures Rewrite(p, target).Sent?
    ensures Rewrite(p, target).packet[26..28] == [0, 0] <==> AddsUp(UdpCovered(p, target))
  {
    hide Covered, SumLE, Fold;
    var q := Readdressed(p, target);
    var z := Patched(q, 26, [0, 0]);
    assert q[12..16] == p[16..20] && q[16..20] == target && q[9] == UDP;
    assert z[20..] == Patched(p, 26, [0, 0])[20..];
    var sum := ChecksumOf(UdpCovered(p, target));
    assert Rewrite(p, target).packet == Patched(q, 26, StoredLE(sum));
    assert Rewrite(p, target).packet[26..28] == StoredLE(sum);
    ZeroStored(sum);
  }

  lemma ZeroStored(sum: nat)
    requires sum < 65536
    ensures StoredLE(sum) == [0, 0] <==> sum == 0
  {
  }

  // From port 60326 to port 53 of 10.0.0.1, no payload.
  const UNLUCKY: seq<byte> :=
    [0x45, 0, 0, 28, 0, 0, 0, 0, 64, 17, 0, 0, 10, 0, 0, 9, 10, 0, 0, 1,
     0xEB, 0xA6, 0, 53, 0, 8, 0, 0]

  predicate Unlucky(p: seq<byte>) {
    && |p| == 28 && p[0] == 0x45 && p[9] == UDP
    && p[16] == 10 && p[17] == 0 && p[18] == 0 && p[19] == 1
    && p[20] == 0xEB && p[21] == 0xA6 && p[22] == 0 && p[23] == 53 && p[24] == 0 && p[25] == 8
  }

  lemma UnluckyPacketLosesChecksum(p: seq<byte>, target: Address)
    requires Unlucky(p)
    requires target[0] == 10 && target[1] == 0 && target[2] == 0 && target[3] == 2
    ensures Plain(p) && p[9] == UDP && Rewrite(p, target).Sent?
    ensures Rewrite(p, target).packet[26..28] == [0, 0]
  {
    hide Rewrite, SumLE, Fold, UdpCovered, Word;
    assert Plain(p);
    UdpChecksumZeroIff(p, target);
    UnluckyLength(p, target);
    var b := UdpCovered(p, target);
    UnluckyWords(p, target, b);
    SumTwenty(b);
    SmallFold(SumLE(b));
  }

  lemma UnluckyExists()
    ensures Unlucky(UNLUCKY)
  {
  }

  lemma UnluckyLength(p: seq<byte>, target: Address)
    requires Unlucky(p) && Packet(p)
    ensures |UdpCovered(p, target)| == 20
  {
  }

  lemma UnluckyWords(p: seq<byte>, target: Address, b: seq<byte>)
    requires Unlucky(p) && target[0] == 10 && target[1] == 0 && target[2] == 0 && target[3] == 2
    requires Packet(p) && b == UdpCovered(p, target) && |b| == 20
    ensures Word(b[1], b[0]) == 10 && Word(b[3], b[2]) == 256 && Word(b[5], b[4]) == 10 && Word(b[7], b[6]) == 512
    ensures Word(b[9], b[8]) == 4352 && Word(b[11], b[10]) == 2048 && Word(b[13], b[12]) == 42731
    ensures Word(b[15], b[14]) == 13568 && Word(b[17], b[16]) == 2048 && Word(b[19], b[18]) == 0
  {
    hide Covered;
    var segment := Patched(p, 26, [0, 0])[20..];
    assert |segment| == 8;
    CoveredLayout(p[16..20], target, UDP, segment);
    assert segment[0] == p[20] && segment[1] == p[21] && segment[2] == p[22] && segment[3] == p[23];
    assert segment[4] == p[24] && segment[5] == p[25] && segment[6] == 0 && segment[7] == 0;
    assert p[16..20][0] == p[16] && p[16..20][1] == p[17] && p[16..20][2] == p[18] && p[16..20][3] == p[19];
  }

  lemma CoveredLayout(src: Address, dst: Address, protocol: byte, segment: seq<byte>)
    requires |segment| < 65536
    ensures var b := Covered(src, dst, protocol, segment);
            && |b| >= 12 + |segment|
            && (forall i | 0 <= i < 4 :: b[i] == src[i] && b[4 + i] == dst[i])
            && b[8] == 0 && b[9] == protocol && b[10] == |segment| / 256 && b[11] == |segment| % 256
            && (forall i | 0 <= i < |segment| :: b[12 + i] == segment[i])
            && |b| == 12 + |segment| + |segment| % 2 && (|segment| % 2 == 1 ==> b[12 + |segment|] == 0)
  {
  }

  lemma SumTwenty(b: seq<byte>)
    requires |b| == 20
    ensures SumLE(b) == Word(b[1], b[0]) + Word(b[3], b[2]) + Word(b[5], b[4]) + Word(b[7], b[6]) + Word(b[9], b[8])
              + Word(b[11], b[10]) + Word(b[13], b[12]) + Word(b[15], b[14]) + Word(b[17], b[16]) + Word(b[19], b[18])
  {
    hide SumLE, Word;
    EmptySum(b);
    SumLESnoc(b, 0);
    SumLESnoc(b, 2);
    SumLESnoc(b, 4);
    SumLESnoc(b, 6);
    SumLESnoc(b, 8);
    SumLESnoc(b, 10);
    SumLESnoc(b, 12);
    SumLESnoc(b, 14);
    SumLESnoc(b, 16);
    SumLESnoc(b, 18);
    assert b[..20] == b;
  }

  lemma SmallFold(sum: nat)
    requires sum < 65536
    ensures Fold(sum) == sum
  {
  }

  lemma EmptySum(b: seq<byte>)
    ensures SumLE(b[..0]) == 0
  {
  }

  /**
   * The source puts the transport header at offset 20 whatever the header length says.  With four
   * bytes of IP options it writes the checksum over the UDP destination port: packets
   * to different ports leave as one and the same.
   */
  lemma OptionsLosePort(p: seq<byte>, target: Address, port: seq<byte>)
    requires Packet(p) && Version(p) == 4 && p[9] == UDP && HeaderLength(p) == 24 && |port| == 2
    ensures var other := Patched(p, 26, port);
            && other[HeaderLength(p)..][2..4] == port
            && Packet(other) && Rewrite(other, target).Sent?
            && Rewrite(other, target) == Rewrite(p, target)
  {
    hide Covered, ChecksumOf, StoredLE;
    var other := Patched(p, 26, port);
    var q, q' := Readdressed(p, target), Readdressed(other, target);
    assert other[16..20] == p[16..20];
    assert q' == Patched(q, 26, port);
    assert Patched(q', 26, [0, 0]) == Patched(q, 26, [0, 0]);
    assert q'[12..16] == q[12..16] && q'[16..20] == q[16..20];
    assert Resummed(q', 26) == Resummed(q, 26);
  }
}
