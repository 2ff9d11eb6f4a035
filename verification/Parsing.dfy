/**
What the input paths accept, byte by byte: each decoder succeeds exactly on the buffers that
pass every check of the program, reads the fields from their places, and drops a buffer of
which one checksummed word was altered on the way.
 */
module Parsing {
  import opened Options
  import opened Words
  import opened Checksum
  import opened TcpSpec
  import opened Headers

  /** The words add up to a positive multiple of 65535. */
  predicate Checks(le: bool, bs: seq<Byte>) {
    Sum(le, bs) > 0 && Sum(le, bs) % ONES == 0
  }

  /** The number two bytes hold in network order. */
  function Number16(hi: Byte, lo: Byte): U16 {
    0x100 * hi + lo
  }

  function Number32(a: Byte, b: Byte, c: Byte, d: Byte): U32 {
    0x100_0000 * (a as int) + 0x1_0000 * (b as int) + 0x100 * (c as int) + d
  }

  // ---- layouts

  /** The pseudo header: both addresses, a zero, the protocol and the length in network order. */
  lemma PseudoBytes(src: Addr, dst: Addr, protocol: Byte, len: U16)
    ensures var p := Pseudo(src, dst, protocol, len);
            && |p| == 12 && p[0..4] == src && p[4..8] == dst && p[8] == 0 && p[9] == protocol
            && Number16(p[10], p[11]) == len
  {
  }

  /** The flag bits of section 3.1 of RFC 793, FIN lowest. */
  lemma FlagBits(f: Flags)
    ensures var b := FlagByte(f);
            && b < 0x20 && (b % 2 == 1 <==> f.fin) && (b / 2 % 2 == 1 <==> f.syn) && (b / 4 % 2 == 1 <==> f.rst)
            && (b / 8 % 2 == 1 <==> f.psh) && (b / 16 % 2 == 1 <==> f.ack)
  {
  }

  /** The segment tcp_output_segment puts together, by position; the sum makes the whole check. */
  lemma TcpBytes(le: bool, src: Addr, dst: Addr, sport: U16, dport: U16, s: Segment)
    requires |s.data| <= MAX_TEXT
    ensures var bs := EncodeTcp(le, src, dst, sport, dport, s);
            && |bs| == 20 + |s.data| && Number16(bs[0], bs[1]) == sport && Number16(bs[2], bs[3]) == dport
            && Number32(bs[4], bs[5], bs[6], bs[7]) == s.seqNo && Number32(bs[8], bs[9], bs[10], bs[11]) == s.ackNo
            && bs[12] == 0x50 && bs[13] == FlagByte(s.flg) && Number16(bs[14], bs[15]) == s.wnd
            && bs[18] == 0 && bs[19] == 0 && bs[20..] == s.data
            && Checks(le, Pseudo(src, dst, 6, |bs|) + bs)
  {
    var raw := TcpHeader(sport, dport, s) + s.data;
    TcpFields(le, src, dst, sport, dport, s);
    TcpHeaderFields(sport, dport, s);
    PatchedBytes(le, raw, 16, Cksum(le, raw, Seed(le, src, dst, PROTOCOL_TCP, |raw|)));
    TcpAccepted(le, le, src, dst, sport, dport, s);
    SeededIff(le, Pseudo(src, dst, PROTOCOL_TCP, |raw|), EncodeTcp(le, src, dst, sport, dport, s));
  }

  lemma UdpBytes(le: bool, src: Addr, dst: Addr, sport: U16, dport: U16, data: seq<Byte>)
    requires |data| <= IP_PAYLOAD_MAX - UDP_HEADER
    ensures var bs := EncodeUdp(le, src, dst, sport, dport, data);
            && |bs| == 8 + |data| && Number16(bs[0], bs[1]) == sport && Number16(bs[2], bs[3]) == dport
            && Number16(bs[4], bs[5]) == |bs| && bs[8..] == data && Checks(le, Pseudo(src, dst, 17, |bs|) + bs)
  {
    UdpFields(le, src, dst, sport, dport, data);
    UdpAccepted(le, le, src, dst, sport, dport, data);
    SeededIff(le, Pseudo(src, dst, PROTOCOL_UDP, UDP_HEADER + |data|), EncodeUdp(le, src, dst, sport, dport, data));
  }

  /** The datagram ip_output_core puts together: no options, no fragments, a TTL of 255. */
  lemma IpBytes(le: bool, protocol: Byte, payload: seq<Byte>, src: Addr, dst: Addr, id: U16)
    requires |payload| <= IP_PAYLOAD_MAX
    ensures var bs := EncodeIp(le, protocol, payload, src, dst, id);
            && |bs| == 20 + |payload| && bs[0] == 0x45 && bs[1] == 0 && Number16(bs[2], bs[3]) == |bs|
            && Number16(bs[4], bs[5]) == id && bs[6] == 0 && bs[7] == 0 && bs[8] == 0xff && bs[9] == protocol
            && bs[12..16] == src && bs[16..20] == dst && bs[20..] == payload && Checks(le, bs[..20])
  {
    var h := IpHeader(protocol, |payload|, src, dst, id);
    IpHeaderFields(protocol, |payload|, src, dst, id);
    ZeroPatchIsIdentity(le, h, 10);
    StoredChecksumVerifies(le, h, 10, 0);
    PatchedBytes(le, h, 10, Cksum(le, h, 0));
    var p := Patch(le, h, 10, Cksum(le, h, 0));
    AcceptedIff(le, p, 0);
    assert (p + payload)[..20] == p && (p + payload)[20..] == payload;
    assert (p + payload)[12..16] == h[12..16] && (p + payload)[16..20] == h[16..20];
  }

  /** The frame ether_transmit_helper puts together, padded with zeros to 60 bytes. */
  lemma EtherBytes(dst: Mac, src: Mac, etype: U16, payload: seq<Byte>)
    requires |payload| <= ETHER_PAYLOAD_MAX
    ensures var frame := EncodeEther(dst, src, etype, payload);
            && |frame| == 14 + (if |payload| < 46 then 46 else |payload|)
            && frame[0..6] == dst && frame[6..12] == src && Number16(frame[12], frame[13]) == etype
            && frame[14..14 + |payload|] == payload
            && forall i :: 14 + |payload| <= i < |frame| ==> frame[i] == 0
  {
    var frame := EncodeEther(dst, src, etype, payload);
    assert frame[12..14] == Be16(etype) && frame[14..14 + |payload|] == payload;
  }

  // ---- what is accepted

  /** Seeded with the complement of the pseudo header's checksum, the test is one of both together. */
  lemma SeededIff(le: bool, pseudo: seq<Byte>, bs: seq<Byte>)
    requires |pseudo| % 2 == 0
    ensures Cksum(le, bs, ONES - Cksum(le, pseudo, 0)) == 0 <==> Checks(le, pseudo + bs)
  {
    SeedIsConcatenation(le, pseudo, bs);
    AcceptedIff(le, pseudo + bs, 0);
  }

  /** The header length and the total length that a datagram claims. */
  function HeaderLength(bs: seq<Byte>): nat
    requires bs != []
  {
    4 * (bs[0] % 16)
  }

  function TotalLength(bs: seq<Byte>): U16
    requires |bs| >= 4
  {
    Number16(bs[2], bs[3])
  }

  /** Everything ip_input asks of a datagram: the fragment offset and the MF bit are the low 14 bits of word 3. */
  predicate GoodIp(le: bool, bs: seq<Byte>, unicast: Addr, broadcast: Addr) {
    && |bs| >= 20 && bs[0] / 16 == 4 && HeaderLength(bs) <= |bs| && TotalLength(bs) <= |bs|
    && Checks(le, bs[..HeaderLength(bs)])
    && bs[6] % 0x40 == 0 && bs[7] == 0
    && (bs[16..20] == unicast || bs[16..20] == broadcast || bs[16..20] == [0xff, 0xff, 0xff, 0xff])
  }

  /** ip_input accepts exactly the good datagrams, and hands the stated bytes on. */
  lemma IpAcceptedIff(le: bool, bs: seq<Byte>, unicast: Addr, broadcast: Addr)
    requires |bs| < TWO_16 && (|bs| >= IP_HEADER ==> bs[0] % 16 * 4 <= Get16(bs, 2))
    ensures DecodeIp(le, bs, unicast, broadcast).Some? <==> GoodIp(le, bs, unicast, broadcast)
    ensures DecodeIp(le, bs, unicast, broadcast).Some? ==>
              DecodeIp(le, bs, unicast, broadcast).value ==
              IpInput(bs[9], bs[HeaderLength(bs)..TotalLength(bs)], bs[12..16], bs[16..20])
  {
    if |bs| >= 20 && HeaderLength(bs) <= |bs| {
      AcceptedIff(le, bs[..HeaderLength(bs)], 0);
      assert Get16(bs, 6) == Number16(bs[6], bs[7]);
    }
  }

  /** Everything tcp_input asks of a segment. */
  predicate GoodTcp(le: bool, bs: seq<Byte>, src: Addr, dst: Addr, broadcast: Addr)
    requires |bs| < TWO_16
  {
    && |bs| >= 20 && Checks(le, src + dst + [0, 6, |bs| / 0x100, |bs| % 0x100] + bs)
    && [0xff, 0xff, 0xff, 0xff] !in {src, dst} && broadcast !in {src, dst}
  }

  lemma PseudoIs(src: Addr, dst: Addr, protocol: Byte, len: U16)
    ensures Pseudo(src, dst, protocol, len) == src + dst + [0, protocol, len / 0x100, len % 0x100]
  {
  }

  /** tcp_input accepts exactly the good segments, and reads each field from its place. */
  lemma TcpAcceptedIff(le: bool, bs: seq<Byte>, src: Addr, dst: Addr, broadcast: Addr)
    requires |bs| <= IP_PAYLOAD_MAX && (|bs| >= TCP_HEADER ==> DataOffset(bs) <= |bs|)
    ensures DecodeTcp(le, bs, src, dst, broadcast).Some? <==> GoodTcp(le, bs, src, dst, broadcast)
    ensures DecodeTcp(le, bs, src, dst, broadcast).Some? ==>
              && var r := DecodeTcp(le, bs, src, dst, broadcast).value;
              && r.sport == Number16(bs[0], bs[1]) && r.dport == Number16(bs[2], bs[3])
              && r.seg.seqNo == Number32(bs[4], bs[5], bs[6], bs[7])
              && r.seg.ackNo == Number32(bs[8], bs[9], bs[10], bs[11])
              && r.seg.wnd == Number16(bs[14], bs[15]) && r.seg.data == bs[4 * (bs[12] / 16)..]
              && (r.seg.flg.fin <==> bs[13] % 2 == 1) && (r.seg.flg.syn <==> bs[13] / 2 % 2 == 1)
              && (r.seg.flg.rst <==> bs[13] / 4 % 2 == 1) && (r.seg.flg.psh <==> bs[13] / 8 % 2 == 1)
              && (r.seg.flg.ack <==> bs[13] / 16 % 2 == 1)
  {
    PseudoIs(src, dst, PROTOCOL_TCP, |bs|);
    SeededIff(le, Pseudo(src, dst, PROTOCOL_TCP, |bs|), bs);
  }

  /** Everything udp_input asks of a datagram. */
  predicate GoodUdp(le: bool, bs: seq<Byte>, src: Addr, dst: Addr)
    requires |bs| < TWO_16
  {
    && |bs| >= 8 && Number16(bs[4], bs[5]) == |bs|
    && Checks(le, src + dst + [0, 17, |bs| / 0x100, |bs| % 0x100] + bs)
  }

  lemma UdpAcceptedIff(le: bool, bs: seq<Byte>, src: Addr, dst: Addr)
    requires |bs| <= IP_PAYLOAD_MAX
    ensures DecodeUdp(le, bs, src, dst).Some? <==> GoodUdp(le, bs, src, dst)
    ensures DecodeUdp(le, bs, src, dst).Some? ==>
              DecodeUdp(le, bs, src, dst).value == UdpInput(Number16(bs[0], bs[1]), Number16(bs[2], bs[3]), bs[8..])
  {
    PseudoIs(src, dst, PROTOCOL_UDP, |bs|);
    SeededIff(le, Pseudo(src, dst, PROTOCOL_UDP, |bs|), bs);
  }

  /** ether_poll_helper accepts what is addressed to the device or to everybody, and is no shorter than a header. */
  lemma EtherAcceptedIff(frame: seq<Byte>, own: Mac)
    ensures DecodeEther(frame, own).Some? <==>
            |frame| >= 14 && (frame[0..6] == own || frame[0..6] == [0xff, 0xff, 0xff, 0xff, 0xff, 0xff])
    ensures DecodeEther(frame, own).Some? ==>
              DecodeEther(frame, own).value == EtherInput(Number16(frame[12], frame[13]), frame[14..])
  {
  }

  // ---- one altered word

  /** The word at an even offset is altered, other than from one of the two zeros to the other. */
  predicate Altered(le: bool, bs: seq<Byte>, i: nat, w: U16) {
    && i % 2 == 0 && i + 2 <= |bs|
    && var was := Word(le, bs[i], bs[i + 1]);
    && w != was && !(was == 0 && w == ONES) && !(was == ONES && w == 0)
  }

  lemma OwnWord(le: bool, bs: seq<Byte>, i: nat)
    requires i + 2 <= |bs|
    ensures Patch(le, bs, i, Word(le, bs[i], bs[i + 1])) == bs
  {
    var w := Word(le, bs[i], bs[i + 1]);
    assert Store(le, w) == [bs[i], bs[i + 1]];
    assert bs == bs[..i] + [bs[i], bs[i + 1]] + bs[i + 2..];
  }

  lemma AlteredFails(le: bool, bs: seq<Byte>, i: nat, w: U16)
    requires Altered(le, bs, i, w) && Checks(le, bs)
    ensures !Checks(le, Patch(le, bs, i, w))
  {
    OwnWord(le, bs, i);
    AcceptedIff(le, bs, 0);
    AcceptedIff(le, Patch(le, bs, i, w), 0);
    if Checks(le, Patch(le, bs, i, w)) {
      SingleWordChangeDetected(le, bs, i, 0, Word(le, bs[i], bs[i + 1]), w);
    }
  }

  /** A datagram of which one header word was altered is dropped, as long as its header length was not. */
  lemma AlteredIpIsDropped(le: bool, bs: seq<Byte>, unicast: Addr, broadcast: Addr, i: nat, w: U16)
    requires |bs| < TWO_16 && GoodIp(le, bs, unicast, broadcast) && Altered(le, bs, i, w) && i + 2 <= HeaderLength(bs)
    requires var bs' := Patch(le, bs, i, w);
             HeaderLength(bs') == HeaderLength(bs) && HeaderLength(bs') <= Get16(bs', 2)
    ensures DecodeIp(le, Patch(le, bs, i, w), unicast, broadcast) == None
  {
    var bs', n := Patch(le, bs, i, w), HeaderLength(bs);
    IpAcceptedIff(le, bs', unicast, broadcast);
    AlteredFails(le, bs[..n], i, w);
    assert bs'[..n] == Patch(le, bs[..n], i, w);
  }

  lemma AlteredTcpIsDropped(le: bool, bs: seq<Byte>, src: Addr, dst: Addr, broadcast: Addr, i: nat, w: U16)
    requires |bs| <= IP_PAYLOAD_MAX && GoodTcp(le, bs, src, dst, broadcast) && Altered(le, bs, i, w)
    requires DataOffset(Patch(le, bs, i, w)) <= |bs|
    ensures DecodeTcp(le, Patch(le, bs, i, w), src, dst, broadcast) == None
  {
    var pseudo := src + dst + [0, 6, |bs| / 0x100, |bs| % 0x100];
    TcpAcceptedIff(le, Patch(le, bs, i, w), src, dst, broadcast);
    AlteredAfter(le, pseudo, bs, i, w);
  }

  lemma AlteredUdpIsDropped(le: bool, bs: seq<Byte>, src: Addr, dst: Addr, i: nat, w: U16)
    requires |bs| <= IP_PAYLOAD_MAX && GoodUdp(le, bs, src, dst) && Altered(le, bs, i, w)
    ensures DecodeUdp(le, Patch(le, bs, i, w), src, dst) == None
  {
    var pseudo := src + dst + [0, 17, |bs| / 0x100, |bs| % 0x100];
    UdpAcceptedIff(le, Patch(le, bs, i, w), src, dst);
    AlteredAfter(le, pseudo, bs, i, w);
  }

  lemma AlteredAfter(le: bool, pseudo: seq<Byte>, bs: seq<Byte>, i: nat, w: U16)
    requires |pseudo| % 2 == 0 && Altered(le, bs, i, w) && Checks(le, pseudo + bs)
    ensures !Checks(le, pseudo + Patch(le, bs, i, w)) && |Patch(le, bs, i, w)| == |bs|
  {
    PatchBehind(le, pseudo, bs, i, w);
    AlteredFails(le, pseudo + bs, |pseudo| + i, w);
  }

  lemma PatchBehind(le: bool, a: seq<Byte>, b: seq<Byte>, i: nat, w: U16)
    requires i + 2 <= |b|
    ensures Patch(le, a + b, |a| + i, w) == a + Patch(le, b, i, w) && |Patch(le, b, i, w)| == |b|
    ensures (a + b)[|a| + i] == b[i] && (a + b)[|a| + i + 1] == b[i + 1]
  {
    assert (a + b)[..|a| + i] == a + b[..i] && (a + b)[|a| + i + 2..] == b[i + 2..];
  }

  /**
  An altered header length can go unnoticed, because it also moves the end of what is
  summed: with one word more, a payload that starts with FE FF 00 00 makes up for the change.
   */
  lemma LongerHeaderGoesUnnoticed(protocol: Byte, src: Addr, dst: Addr, id: U16, broadcast: Addr)
    ensures var bs := EncodeIp(false, protocol, [0xfe, 0xff, 0, 0], src, dst, id);
            var bs' := Patch(false, bs, 0, 0x4600);
            && |bs'| == 24 && HeaderLength(bs') <= Get16(bs', 2)
            && DecodeIp(false, bs', dst, broadcast) == Some(IpInput(protocol, [], src, dst))
  {
    var payload := [0xfe, 0xff, 0, 0];
    var bs := EncodeIp(false, protocol, payload, src, dst, id);
    var bs' := Patch(false, bs, 0, 0x4600);
    IpBytes(false, protocol, payload, src, dst, id);
    assert bs == bs[..20] + payload;
    LongerHeaderSum(bs[..20]);
    assert bs' == Patch(false, bs[..20], 0, 0x4600) + payload;
    assert bs'[..24] == bs' && bs'[24..24] == [];
    assert bs'[12..16] == bs[12..16] && bs'[16..20] == bs[16..20];
    IpAcceptedIff(false, bs', dst, broadcast);
  }

  lemma LongerHeaderSum(h: seq<Byte>)
    requires |h| == 20 && h[0] == 0x45 && h[1] == 0
    ensures Sum(false, Patch(false, h, 0, 0x4600) + [0xfe, 0xff, 0, 0]) == Sum(false, h) + ONES
  {
    var payload: seq<Byte> := [0xfe, 0xff, 0, 0];
    OwnWord(false, h, 0);
    SumPatch(false, h, 0, 0x4500);
    SumPatch(false, h, 0, 0x4600);
    SumConcat(false, Patch(false, h, 0, 0x4600), payload);
    assert payload[2..] == [0, 0] && payload[2..][2..] == [];
  }
}
