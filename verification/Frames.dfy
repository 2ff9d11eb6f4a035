/**
The output buffers as the program fills them, field by field in place: each ends up
holding the bytes that Headers says.
 */
module Frames {
  import opened Words
  import opened Checksum
  import opened TcpSpec
  import opened Headers

  /** memcpy into a buffer. */
  method Put(buf: array<Byte>, at: nat, bytes: seq<Byte>)
    requires at + |bytes| <= buf.Length
    modifies buf
    ensures buf[..at + |bytes|] == old(buf[..at]) + bytes
    ensures buf[at + |bytes|..] == old(buf[at + |bytes|..])
    ensures forall j :: at + |bytes| <= j < buf.Length ==> buf[j] == old(buf[j])
  {
    for i := 0 to |bytes|
      invariant forall j :: 0 <= j < buf.Length && !(at <= j < at + i) ==> buf[j] == old(buf[j])
      invariant forall j :: 0 <= j < i ==> buf[at + j] == bytes[j]
    {
      buf[at + i] := bytes[i];
    }
    assert buf[..at + |bytes|] == buf[..at] + buf[at..at + |bytes|];
  }

  method Put16(le: bool, buf: array<Byte>, at: nat, v: U16)
    requires at + 2 <= buf.Length
    modifies buf
    ensures buf[..at + 2] == old(buf[..at]) + Be16(v) && buf[at + 2..] == old(buf[at + 2..])
    ensures forall j :: at + 2 <= j < buf.Length ==> buf[j] == old(buf[j])
  {
    ConvertedStoreIsNetworkOrder(le, v, 0);
    Put(buf, at, Store(le, Hton16(le, v)));
  }

  method Put32(le: bool, buf: array<Byte>, at: nat, v: U32)
    requires at + 4 <= buf.Length
    modifies buf
    ensures buf[..at + 4] == old(buf[..at]) + Be32(v) && buf[at + 4..] == old(buf[at + 4..])
  {
    ConvertedStoreIsNetworkOrder(le, 0, v);
    Put(buf, at, Store32(le, Hton32(le, v)));
  }

  /** Storing the sum, unconverted, over the field that was zero. */
  method PutSum(le: bool, buf: array<Byte>, at: nat, sum: U16, total: nat)
    requires at + 2 <= total <= buf.Length
    modifies buf
    ensures buf[..total] == Patch(le, old(buf[..total]), at, sum) && buf[total..] == old(buf[total..])
  {
    Put(buf, at, Store(le, sum));
    assert buf[..total] == buf[..at + 2] + buf[at + 2..][..total - at - 2];
    assert old(buf[..total])[at + 2..] == old(buf[at + 2..])[..total - at - 2];
    assert buf[total..] == buf[at + 2..][total - at - 2..];
    assert old(buf[total..]) == old(buf[at + 2..])[total - at - 2..];
  }

  method FillTcpHeader(le: bool, buf: array<Byte>, sport: U16, dport: U16, s: Segment)
    requires buf.Length == IP_PAYLOAD_MAX
    modifies buf
    ensures buf[..TCP_HEADER] == TcpHeader(sport, dport, s)
  {
    Put(buf, 0, Be16(sport));
    Put(buf, 2, Be16(dport));
    Put32(le, buf, 4, s.seqNo);
    Put32(le, buf, 8, s.ackNo);
    Put(buf, 12, [0x50]);
    Put(buf, 13, [FlagByte(s.flg)]);
    Put16(le, buf, 14, s.wnd);
    Put(buf, 16, [0, 0]);
    Put(buf, 18, [0, 0]);
  }

  /** tcp_output_segment up to ip_output. */
  method FillTcp(le: bool, buf: array<Byte>, src: Addr, dst: Addr, sport: U16, dport: U16, s: Segment)
    returns (total: nat)
    requires buf.Length == IP_PAYLOAD_MAX && |s.data| <= MAX_TEXT
    modifies buf
    ensures total == TCP_HEADER + |s.data| && buf[..total] == EncodeTcp(le, src, dst, sport, dport, s)
  {
    FillTcpHeader(le, buf, sport, dport, s);
    Put(buf, TCP_HEADER, s.data);
    total := TCP_HEADER + |s.data|;
    var psum := Cksum16(le, Pseudo(src, dst, PROTOCOL_TCP, total), 0);
    var sum := Cksum16(le, buf[..total], ONES - psum);
    PutSum(le, buf, 16, sum, total);
  }

  /** udp_output up to ip_output; false when the data cannot fit. */
  method FillUdp(le: bool, buf: array<Byte>, src: Addr, dst: Addr, sport: U16, dport: U16, data: seq<Byte>)
    returns (ok: bool)
    requires buf.Length == IP_PAYLOAD_MAX
    modifies buf
    ensures ok <==> UDP_HEADER + |data| <= IP_PAYLOAD_MAX
    ensures ok ==> buf[..UDP_HEADER + |data|] == EncodeUdp(le, src, dst, sport, dport, data)
  {
    if |data| > IP_PAYLOAD_MAX - UDP_HEADER {
      return false;
    }
    var total := UDP_HEADER + |data|;
    Put(buf, 0, Be16(sport));
    Put(buf, 2, Be16(dport));
    Put16(le, buf, 4, total);
    Put(buf, 6, [0, 0]);
    Put(buf, UDP_HEADER, data);
    assert buf[..total] == Be16(sport) + Be16(dport) + Be16(total) + [0, 0] + data;
    var psum := Cksum16(le, Pseudo(src, dst, PROTOCOL_UDP, total), 0);
    var sum := Cksum16(le, buf[..total], ONES - psum);
    PutSum(le, buf, 6, sum, total);
    return true;
  }

  /** ip_output_core up to the device. */
  method FillIp(le: bool, buf: array<Byte>, protocol: Byte, data: seq<Byte>, src: Addr, dst: Addr, id: U16)
    returns (total: nat)
    requires buf.Length == TWO_16 - 1 && |data| <= IP_PAYLOAD_MAX
    modifies buf
    ensures total == IP_HEADER + |data| && buf[..total] == EncodeIp(le, protocol, data, src, dst, id)
  {
    total := IP_HEADER + |data|;
    Put(buf, 0, [0x45, 0]);
    Put16(le, buf, 2, total);
    Put16(le, buf, 4, id);
    Put16(le, buf, 6, 0);
    Put(buf, 8, [0xff, protocol]);
    Put(buf, 10, [0, 0]);
    Put(buf, 12, src);
    Put(buf, 16, dst);
    assert buf[..IP_HEADER] == IpHeader(protocol, |data|, src, dst, id);
    var sum := Cksum16(le, buf[..IP_HEADER], 0);
    PutSum(le, buf, 10, sum, IP_HEADER);
    Put(buf, IP_HEADER, data);
  }

  /** ether_transmit_helper up to the driver: the frame starts zeroed, so short payloads come out padded. */
  method FillEther(le: bool, dst: Mac, src: Mac, etype: U16, data: seq<Byte>) returns (frame: array<Byte>, flen: nat)
    requires |data| <= ETHER_PAYLOAD_MAX
    ensures flen <= frame.Length && frame[..flen] == EncodeEther(dst, src, etype, data)
  {
    frame := new Byte[ETHER_HEADER + ETHER_PAYLOAD_MAX](_ => 0);
    Put(frame, 0, dst);
    Put(frame, 6, src);
    Put16(le, frame, 12, etype);
    assert forall j :: ETHER_HEADER <= j < frame.Length ==> frame[j] == 0;
    Put(frame, ETHER_HEADER, data);
    var pad := 0;
    if |data| < ETHER_PAYLOAD_MIN {
      pad := ETHER_PAYLOAD_MIN - |data|;
    }
    flen := ETHER_HEADER + |data| + pad;
    assert frame[..flen] == frame[..ETHER_HEADER + |data|] + Padding(|data|);
  }
}
