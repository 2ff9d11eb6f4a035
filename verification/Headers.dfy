/**
Building and parsing TCP and UDP segments, IP datagrams and Ethernet frames, byte by
byte. `le` is the host's byte order: it decides how checksum words are read and stored,
and what hton16 and hton32 do.
 */
module Headers {
  import opened Options
  import opened Words
  import opened Checksum
  import opened TcpSpec

  type Addr = a: seq<Byte> | |a| == 4 witness [0, 0, 0, 0]       // in memory order
  type Mac = a: seq<Byte> | |a| == 6 witness [0, 0, 0, 0, 0, 0]

  const BROADCAST: Addr := [0xff, 0xff, 0xff, 0xff]
  const MAC_BROADCAST: Mac := [0xff, 0xff, 0xff, 0xff, 0xff, 0xff]

  const PROTOCOL_TCP: Byte := 0x06
  const PROTOCOL_UDP: Byte := 0x11
  const TYPE_IP: U16 := 0x0800
  const TCP_HEADER := 20
  const UDP_HEADER := 8
  const IP_HEADER := 20
  const ETHER_HEADER := 14
  const ETHER_PAYLOAD_MIN := 46
  const ETHER_PAYLOAD_MAX := 1500
  const IP_PAYLOAD_MAX := 65515

  // ---- byte order

  function Be16(v: U16): seq<Byte> {
    [v / 0x100, v % 0x100]
  }

  function Be32(v: U32): seq<Byte> {
    [v / 0x100_0000, v / 0x1_0000 % 0x100, v / 0x100 % 0x100, v % 0x100]
  }

  function Get16(bs: seq<Byte>, i: nat): U16
    requires i + 2 <= |bs|
  {
    Word(false, bs[i], bs[i + 1])
  }

  function Get32(bs: seq<Byte>, i: nat): U32
    requires i + 4 <= |bs|
  {
    0x1_0000 * (Get16(bs, i) as int) + Get16(bs, i + 2)
  }

  lemma GetBe32(v: U32)
    ensures Get32(Be32(v), 0) == v
  {
    var a, b, c, d := v / 0x100_0000, v / 0x1_0000 % 0x100, v / 0x100 % 0x100, v % 0x100;
    assert v / 0x1_0000 == a * 0x100 + b;
    assert v / 0x100 == (a * 0x100 + b) * 0x100 + c;
  }

  /** byteswap32, and the native store of a 32-bit word. */
  function Swap32(v: U32): U32 {
    v % 0x100 * 0x100_0000 + v / 0x100 % 0x100 * 0x1_0000 + v / 0x1_0000 % 0x100 * 0x100 + v / 0x100_0000
  }

  function Store32(le: bool, v: U32): seq<Byte> {
    if le then [v % 0x100, v / 0x100 % 0x100, v / 0x1_0000 % 0x100, v / 0x100_0000] else Be32(v)
  }

  function Hton16(le: bool, v: U16): U16 {
    if le then Swap16(v) else v
  }

  function Hton32(le: bool, v: U32): U32 {
    if le then Swap32(v) else v
  }

  /** The base-256 digits of a 32-bit word are its bytes. */
  lemma Digits(a: Byte, b: Byte, c: Byte, d: Byte, v: U32)
    requires v == 0x100_0000 * (a as int) + 0x1_0000 * (b as int) + 0x100 * (c as int) + d
    ensures v / 0x100_0000 == a && v / 0x1_0000 % 0x100 == b && v / 0x100 % 0x100 == c && v % 0x100 == d
  {
    assert v / 0x100 == 0x1_0000 * (a as int) + 0x100 * (b as int) + c;
    assert v / 0x1_0000 == 0x100 * (a as int) + b;
  }

  lemma Swap32ReversesBytes(v: U32)
    ensures Store32(true, Swap32(v)) == Be32(v) && Swap32(Swap32(v)) == v
  {
    GetBe32(v);
    var s := Swap32(v);
    Digits(v % 0x100, v / 0x100 % 0x100, v / 0x1_0000 % 0x100, v / 0x100_0000, s);
  }

  lemma Swap16ReversesBytes(v: U16)
    ensures Store(true, Swap16(v)) == Be16(v) && Swap16(Swap16(v)) == v
  {
  }

  /** A converted word stored natively is in network order on either host; converting twice is the identity. */
  lemma ConvertedStoreIsNetworkOrder(le: bool, v: U16, w: U32)
    ensures Store(le, Hton16(le, v)) == Be16(v)
    ensures Store32(le, Hton32(le, w)) == Be32(w)
    ensures Hton16(le, Hton16(le, v)) == v && Hton32(le, Hton32(le, w)) == w
  {
    Swap16ReversesBytes(v);
    Swap32ReversesBytes(w);
  }

  // ---- TCP

  function FlagByte(f: Flags): Byte {
    (if f.fin then 0x01 else 0) + (if f.syn then 0x02 else 0) + (if f.rst then 0x04 else 0)
    + (if f.psh then 0x08 else 0) + (if f.ack then 0x10 else 0)
  }

  function ByteFlags(b: Byte): Flags {
    Flags(b % 2 == 1, b / 2 % 2 == 1, b / 4 % 2 == 1, b / 8 % 2 == 1, b / 16 % 2 == 1)
  }

  lemma FlagsRoundTrip(f: Flags)
    ensures ByteFlags(FlagByte(f)) == f
  {
  }

  /** The pseudo header both checksums start with. */
  function Pseudo(src: Addr, dst: Addr, protocol: Byte, len: U16): seq<Byte> {
    src + dst + [0, protocol] + Be16(len)
  }

  /** The seed: the complement of the pseudo header's checksum. */
  function Seed(le: bool, src: Addr, dst: Addr, protocol: Byte, len: U16): U16 {
    ONES - Cksum(le, Pseudo(src, dst, protocol, len), 0)
  }

  /** The header as tcp_output_segment fills it in, with the sum still zero. */
  function TcpHeader(sport: U16, dport: U16, s: Segment): (h: seq<Byte>)
    ensures |h| == TCP_HEADER
  {
    Be16(sport) + Be16(dport) + Be32(s.seqNo) + Be32(s.ackNo) + [0x50, FlagByte(s.flg)] + Be16(s.wnd) + [0, 0] + [0, 0]
  }

  function EncodeTcp(le: bool, src: Addr, dst: Addr, sport: U16, dport: U16, s: Segment): seq<Byte>
    requires |s.data| <= MAX_TEXT
  {
    var raw := TcpHeader(sport, dport, s) + s.data;
    Patch(le, raw, 16, Cksum(le, raw, Seed(le, src, dst, PROTOCOL_TCP, |raw|)))
  }

  datatype TcpInput = TcpInput(sport: U16, dport: U16, seg: Segment)

  /** The data offset field, in bytes. */
  function DataOffset(bs: seq<Byte>): nat
    requires |bs| >= TCP_HEADER
  {
    bs[12] / 16 * 4
  }

  /**
  tcp_input up to the hand-over. `broadcast` is the interface's directed broadcast address.
  A data offset beyond the segment is not checked by the program and has no meaning here.
   */
  function DecodeTcp(le: bool, bs: seq<Byte>, src: Addr, dst: Addr, broadcast: Addr): Option<TcpInput>
    requires |bs| <= IP_PAYLOAD_MAX && (|bs| >= TCP_HEADER ==> DataOffset(bs) <= |bs|)
  {
    if |bs| < TCP_HEADER then None
    else if Cksum(le, bs, Seed(le, src, dst, PROTOCOL_TCP, |bs|)) != 0 then None
    else if src == BROADCAST || src == broadcast || dst == BROADCAST || dst == broadcast then None
    else Some(TcpInput(Get16(bs, 0), Get16(bs, 2),
                       Segment(Get32(bs, 4), Get32(bs, 8), ByteFlags(bs[13]), Get16(bs, 14), bs[DataOffset(bs)..])))
  }

  lemma PatchedBytes(le: bool, raw: seq<Byte>, i: nat, w: U16)
    requires i + 2 <= |raw|
    ensures |Patch(le, raw, i, w)| == |raw|
    ensures forall j :: 0 <= j < |raw| && !(i <= j < i + 2) ==> Patch(le, raw, i, w)[j] == raw[j]
    ensures Patch(le, raw, i, w)[i + 2..] == raw[i + 2..] && Patch(le, raw, i, w)[..i] == raw[..i]
  {
  }

  lemma ZeroPatchIsIdentity(le: bool, raw: seq<Byte>, i: nat)
    requires i + 2 <= |raw| && raw[i] == 0 && raw[i + 1] == 0
    ensures Patch(le, raw, i, 0) == raw
  {
  }

  /** Read in pairs from the front, the bytes leave no odd one over, or a zero. */
  predicate EndsEven(bs: seq<Byte>) {
    |bs| % 2 == 0 || bs[|bs| - 1] == 0
  }

  /** A checksum made on one host, checked on the other: right exactly when no odd non-zero byte is left over. */
  lemma OtherHostAccepts(le: bool, le': bool, pseudo: seq<Byte>, bs: seq<Byte>)
    requires |pseudo| % 2 == 0 && Cksum(le, bs, ONES - Cksum(le, pseudo, 0)) == 0
    ensures Cksum(le', bs, ONES - Cksum(le', pseudo, 0)) == 0 <==> le' == le || EndsEven(bs)
  {
    SeedIsConcatenation(le, pseudo, bs);
    SeedIsConcatenation(le', pseudo, bs);
    if le' != le {
      var all := pseudo + bs;
      SwappedChecksumIff(le, all);
      assert Cksum(le, all, 0) == 0 && Swap16(0) == 0;
      assert Tail(all) == Tail(bs);
    }
  }

  /** A buffer summed on one host, as the other host sees it. */
  lemma SummedIsAccepted(le: bool, le': bool, raw: seq<Byte>, i: nat, pseudo: seq<Byte>)
    requires |pseudo| % 2 == 0 && i % 2 == 0 && i + 2 <= |raw| && raw[i] == 0 && raw[i + 1] == 0
    ensures var bs := Patch(le, raw, i, Cksum(le, raw, ONES - Cksum(le, pseudo, 0)));
            Cksum(le', bs, ONES - Cksum(le', pseudo, 0)) == 0 <==> le' == le || EndsEven(bs)
  {
    var seed: U16 := ONES - Cksum(le, pseudo, 0);
    ZeroPatchIsIdentity(le, raw, i);
    StoredChecksumVerifies(le, raw, i, seed);
    OtherHostAccepts(le, le', pseudo, Patch(le, raw, i, Cksum(le, raw, seed)));
  }

  lemma EndOfPayload(bs: seq<Byte>, n: nat, data: seq<Byte>)
    requires n % 2 == 0 && n <= |bs| && bs[n..] == data
    ensures EndsEven(bs) <==> EndsEven(data)
  {
    if data != [] {
      assert bs[|bs| - 1] == data[|data| - 1];
    }
  }

  lemma TcpHeaderFields(sport: U16, dport: U16, s: Segment)
    ensures var h := TcpHeader(sport, dport, s);
            && Get16(h, 0) == sport && Get16(h, 2) == dport && Get32(h, 4) == s.seqNo && Get32(h, 8) == s.ackNo
            && h[12] == 0x50 && h[13] == FlagByte(s.flg) && Get16(h, 14) == s.wnd && h[16] == 0 && h[17] == 0
  {
    var h := TcpHeader(sport, dport, s);
    GetBe32(s.seqNo);
    GetBe32(s.ackNo);
    assert h[4..8] == Be32(s.seqNo) && h[8..12] == Be32(s.ackNo);
    assert h[0..2] == Be16(sport) && h[2..4] == Be16(dport) && h[14..16] == Be16(s.wnd);
  }

  lemma TcpFields(le: bool, src: Addr, dst: Addr, sport: U16, dport: U16, s: Segment)
    requires |s.data| <= MAX_TEXT
    ensures var bs := EncodeTcp(le, src, dst, sport, dport, s);
            && |bs| == TCP_HEADER + |s.data| && DataOffset(bs) == TCP_HEADER
            && Get16(bs, 0) == sport && Get16(bs, 2) == dport && Get32(bs, 4) == s.seqNo && Get32(bs, 8) == s.ackNo
            && bs[13] == FlagByte(s.flg) && Get16(bs, 14) == s.wnd && bs[TCP_HEADER..] == s.data
  {
    var raw := TcpHeader(sport, dport, s) + s.data;
    var bs := EncodeTcp(le, src, dst, sport, dport, s);
    TcpHeaderFields(sport, dport, s);
    PatchedBytes(le, raw, 16, Cksum(le, raw, Seed(le, src, dst, PROTOCOL_TCP, |raw|)));
    assert bs[18..][2..] == bs[20..] && raw[18..][2..] == raw[20..];
    assert raw[20..] == s.data;
  }

  lemma TcpAccepted(le: bool, le': bool, src: Addr, dst: Addr, sport: U16, dport: U16, s: Segment)
    requires |s.data| <= MAX_TEXT
    ensures var bs := EncodeTcp(le, src, dst, sport, dport, s);
            && |bs| < TWO_16
            && (Cksum(le', bs, Seed(le', src, dst, PROTOCOL_TCP, |bs|)) == 0 <==> le' == le || EndsEven(s.data))
  {
    var raw := TcpHeader(sport, dport, s) + s.data;
    TcpHeaderFields(sport, dport, s);
    TcpFields(le, src, dst, sport, dport, s);
    SummedIsAccepted(le, le', raw, 16, Pseudo(src, dst, PROTOCOL_TCP, |raw|));
    EndOfPayload(EncodeTcp(le, src, dst, sport, dport, s), TCP_HEADER, s.data);
  }

  /**
  Any text, any flags, any ports: what tcp_output_segment emits on a host of either byte
  order, tcp_input on a host of either takes back unchanged, except that hosts of
  different byte order disagree on the checksum of a text with an odd non-zero byte left over.
   */
  lemma TcpRoundTrip(le: bool, le': bool, src: Addr, dst: Addr, broadcast: Addr, sport: U16, dport: U16, s: Segment)
    requires |s.data| <= MAX_TEXT
    requires src != BROADCAST && src != broadcast && dst != BROADCAST && dst != broadcast
    ensures var bs := EncodeTcp(le, src, dst, sport, dport, s);
            && TCP_HEADER <= |bs| <= IP_PAYLOAD_MAX && DataOffset(bs) <= |bs|
            && DecodeTcp(le', bs, src, dst, broadcast) ==
               if le' == le || EndsEven(s.data) then Some(TcpInput(sport, dport, s)) else None
  {
    TcpFields(le, src, dst, sport, dport, s);
    TcpAccepted(le, le', src, dst, sport, dport, s);
    FlagsRoundTrip(s.flg);
  }

  // ---- UDP

  function EncodeUdp(le: bool, src: Addr, dst: Addr, sport: U16, dport: U16, data: seq<Byte>): seq<Byte>
    requires |data| <= IP_PAYLOAD_MAX - UDP_HEADER
  {
    var raw := UdpRaw(sport, dport, data);
    Patch(le, raw, 6, Cksum(le, raw, Seed(le, src, dst, PROTOCOL_UDP, |raw|)))
  }

  datatype UdpInput = UdpInput(sport: U16, dport: U16, data: seq<Byte>)

  function DecodeUdp(le: bool, bs: seq<Byte>, src: Addr, dst: Addr): Option<UdpInput>
    requires |bs| <= IP_PAYLOAD_MAX
  {
    if |bs| < UDP_HEADER then None
    else if |bs| != Get16(bs, 4) then None
    else if Cksum(le, bs, Seed(le, src, dst, PROTOCOL_UDP, |bs|)) != 0 then None
    else Some(UdpInput(Get16(bs, 0), Get16(bs, 2), bs[UDP_HEADER..]))
  }

  function UdpRaw(sport: U16, dport: U16, data: seq<Byte>): seq<Byte>
    requires |data| <= IP_PAYLOAD_MAX - UDP_HEADER
  {
    Be16(sport) + Be16(dport) + Be16(UDP_HEADER + |data|) + [0, 0] + data
  }

  lemma UdpFields(le: bool, src: Addr, dst: Addr, sport: U16, dport: U16, data: seq<Byte>)
    requires |data| <= IP_PAYLOAD_MAX - UDP_HEADER
    ensures var bs := EncodeUdp(le, src, dst, sport, dport, data);
            && |bs| == UDP_HEADER + |data| && Get16(bs, 0) == sport && Get16(bs, 2) == dport
            && Get16(bs, 4) == |bs| && bs[UDP_HEADER..] == data
  {
    var raw := UdpRaw(sport, dport, data);
    assert raw[0..2] == Be16(sport) && raw[2..4] == Be16(dport) && raw[4..6] == Be16(UDP_HEADER + |data|);
    PatchedBytes(le, raw, 6, Cksum(le, raw, Seed(le, src, dst, PROTOCOL_UDP, |raw|)));
    assert raw[8..] == data;
  }

  lemma UdpAccepted(le: bool, le': bool, src: Addr, dst: Addr, sport: U16, dport: U16, data: seq<Byte>)
    requires |data| <= IP_PAYLOAD_MAX - UDP_HEADER
    ensures var bs := EncodeUdp(le, src, dst, sport, dport, data);
            && |bs| < TWO_16
            && (Cksum(le', bs, Seed(le', src, dst, PROTOCOL_UDP, |bs|)) == 0 <==> le' == le || EndsEven(data))
  {
    var raw := UdpRaw(sport, dport, data);
    assert raw[6] == 0 && raw[7] == 0;
    UdpFields(le, src, dst, sport, dport, data);
    SummedIsAccepted(le, le', raw, 6, Pseudo(src, dst, PROTOCOL_UDP, |raw|));
    EndOfPayload(EncodeUdp(le, src, dst, sport, dport, data), UDP_HEADER, data);
  }

  lemma UdpRoundTrip(le: bool, le': bool, src: Addr, dst: Addr, sport: U16, dport: U16, data: seq<Byte>)
    requires |data| <= IP_PAYLOAD_MAX - UDP_HEADER
    ensures DecodeUdp(le', EncodeUdp(le, src, dst, sport, dport, data), src, dst) ==
            if le' == le || EndsEven(data) then Some(UdpInput(sport, dport, data)) else None
  {
    UdpFields(le, src, dst, sport, dport, data);
    UdpAccepted(le, le', src, dst, sport, dport, data);
  }

  // ---- IP

  /** The header as ip_output_core fills it in, with the sum still zero; no fragments. */
  function IpHeader(protocol: Byte, len: nat, src: Addr, dst: Addr, id: U16): (h: seq<Byte>)
    requires len <= IP_PAYLOAD_MAX
    ensures |h| == IP_HEADER
  {
    [0x45, 0] + Be16(IP_HEADER + len) + Be16(id) + [0, 0] + [0xff, protocol] + [0, 0] + src + dst
  }

  function EncodeIp(le: bool, protocol: Byte, payload: seq<Byte>, src: Addr, dst: Addr, id: U16): seq<Byte>
    requires |payload| <= IP_PAYLOAD_MAX
  {
    var h := IpHeader(protocol, |payload|, src, dst, id);
    Patch(le, h, 10, Cksum(le, h, 0)) + payload
  }

  datatype IpInput = IpInput(protocol: Byte, payload: seq<Byte>, src: Addr, dst: Addr)

  /**
  ip_input up to the hand-over, for an interface with the given addresses. A total length
  below the header length is not checked by the program and has no meaning here.
   */
  function DecodeIp(le: bool, bs: seq<Byte>, unicast: Addr, broadcast: Addr): Option<IpInput>
    requires |bs| < TWO_16 && (|bs| >= IP_HEADER ==> bs[0] % 16 * 4 <= Get16(bs, 2))
  {
    if |bs| < IP_HEADER then None
    else if bs[0] / 16 != 4 then None
    else
      var hlen := bs[0] % 16 * 4;
      var total := Get16(bs, 2);
      if |bs| < hlen || |bs| < total then None
      else if Cksum(le, bs[..hlen], 0) != 0 then None
      else if Get16(bs, 6) % 0x4000 != 0 then None
      else
        var dst := bs[16..20];
        if dst != unicast && dst != broadcast && dst != BROADCAST then None
        else Some(IpInput(bs[9], bs[hlen..total], bs[12..16], dst))
  }

  lemma IpHeaderFields(protocol: Byte, len: nat, src: Addr, dst: Addr, id: U16)
    requires len <= IP_PAYLOAD_MAX
    ensures var h := IpHeader(protocol, len, src, dst, id);
            && h[0] == 0x45 && Get16(h, 2) == IP_HEADER + len && Get16(h, 6) == 0 && h[9] == protocol
            && h[10] == 0 && h[11] == 0 && h[12..16] == src && h[16..20] == dst
  {
    var h := IpHeader(protocol, len, src, dst, id);
    assert h[2..4] == Be16(IP_HEADER + len);
  }

  /**
  What ip_output_core emits parses back on a host of either byte order, whatever padding
  follows it, exactly if it is addressed to that host or to everybody.
   */
  lemma IpRoundTrip(le: bool, le': bool, protocol: Byte, payload: seq<Byte>, src: Addr, dst: Addr, id: U16,
                    own: Addr, broadcast: Addr, padding: seq<Byte>)
    requires |payload| <= IP_PAYLOAD_MAX && IP_HEADER + |payload| + |padding| < TWO_16
    ensures var bs := EncodeIp(le, protocol, payload, src, dst, id) + padding;
            && |bs| < TWO_16 && |bs| >= IP_HEADER && bs[0] % 16 * 4 <= Get16(bs, 2)
            && DecodeIp(le', bs, own, broadcast) ==
               if dst == own || dst == broadcast || dst == BROADCAST then Some(IpInput(protocol, payload, src, dst))
               else None
  {
    var h := IpHeader(protocol, |payload|, src, dst, id);
    IpHeaderFields(protocol, |payload|, src, dst, id);
    ZeroPatchIsIdentity(le, h, 10);
    StoredChecksumVerifies(le, h, 10, 0);
    PatchedBytes(le, h, 10, Cksum(le, h, 0));
    var p := Patch(le, h, 10, Cksum(le, h, 0));
    var bs := p + payload + padding;
    if le' != le {
      SwappedChecksumIff(le, p);
    }
    assert bs[..20] == p && bs[20..20 + |payload|] == payload;
    assert bs[12..16] == h[12..16] && bs[16..20] == h[16..20];
  }

  // ---- Ethernet

  /** ether_transmit_helper: frames shorter than the minimum are padded with zeros. */
  function EncodeEther(dst: Mac, src: Mac, etype: U16, payload: seq<Byte>): seq<Byte>
    requires |payload| <= ETHER_PAYLOAD_MAX
  {
    dst + src + Be16(etype) + payload + Padding(|payload|)
  }

  function Padding(len: nat): seq<Byte> {
    if len < ETHER_PAYLOAD_MIN then seq(ETHER_PAYLOAD_MIN - len, _ => 0) else []
  }

  datatype EtherInput = EtherInput(etype: U16, payload: seq<Byte>)

  /** ether_poll_helper for a device with address `own`. */
  function DecodeEther(frame: seq<Byte>, own: Mac): Option<EtherInput> {
    if |frame| < ETHER_HEADER then None
    else if frame[..6] != own && frame[..6] != MAC_BROADCAST then None
    else Some(EtherInput(Get16(frame, 12), frame[ETHER_HEADER..]))
  }

  lemma EtherRoundTrip(dst: Mac, src: Mac, etype: U16, payload: seq<Byte>, own: Mac)
    requires |payload| <= ETHER_PAYLOAD_MAX
    ensures DecodeEther(EncodeEther(dst, src, etype, payload), own) ==
            if dst == own || dst == MAC_BROADCAST then Some(EtherInput(etype, payload + Padding(|payload|))) else None
    ensures 60 <= |EncodeEther(dst, src, etype, payload)| <= 1514
  {
    var frame := EncodeEther(dst, src, etype, payload);
    assert frame[..6] == dst && frame[12..14] == Be16(etype);
    assert frame[ETHER_HEADER..] == payload + Padding(|payload|);
  }

  // ---- the whole stack

  datatype Endpoint = Endpoint(mac: Mac, addr: Addr, port: U16)

  /** Reception of a frame, as far as an IP payload for the protocol. */
  function ReceiveIp(le: bool, frame: seq<Byte>, own: Endpoint, broadcast: Addr): Option<IpInput>
    requires |frame| <= 1514
    requires var e := DecodeEther(frame, own.mac);
             e.Some? && |e.value.payload| >= IP_HEADER ==> e.value.payload[0] % 16 * 4 <= Get16(e.value.payload, 2)
  {
    match DecodeEther(frame, own.mac)
    case None => None
    case Some(e) => if e.etype != TYPE_IP then None else DecodeIp(le, e.payload, own.addr, broadcast)
  }

  /** A frame to `dst` is for the host `own`: for its own addresses or for everybody's. */
  predicate IsFor(dst: Endpoint, own: Endpoint, broadcast: Addr) {
    && (dst.mac == own.mac || dst.mac == MAC_BROADCAST)
    && (dst.addr == own.addr || dst.addr == broadcast || dst.addr == BROADCAST)
  }

  /**
  An IP payload survives encapsulation and reaches exactly the hosts the frame is for; the
  padding of a short frame is cut off by the total length.
   */
  lemma FrameRoundTrip(le: bool, le': bool, protocol: Byte, payload: seq<Byte>, src: Endpoint, dst: Endpoint, id: U16,
                       own: Endpoint, broadcast: Addr)
    requires IP_HEADER + |payload| <= ETHER_PAYLOAD_MAX
    ensures var datagram := EncodeIp(le, protocol, payload, src.addr, dst.addr, id);
            var frame := EncodeEther(dst.mac, src.mac, TYPE_IP, datagram);
            && |frame| <= 1514
            && var e := DecodeEther(frame, own.mac);
            && (e.Some? ==> |e.value.payload| >= IP_HEADER && e.value.payload[0] % 16 * 4 <= Get16(e.value.payload, 2))
            && ReceiveIp(le', frame, own, broadcast) ==
               if IsFor(dst, own, broadcast) then Some(IpInput(protocol, payload, src.addr, dst.addr)) else None
  {
    var datagram := EncodeIp(le, protocol, payload, src.addr, dst.addr, id);
    EtherRoundTrip(dst.mac, src.mac, TYPE_IP, datagram, own.mac);
    IpRoundTrip(le, le', protocol, payload, src.addr, dst.addr, id, own.addr, broadcast, Padding(|datagram|));
  }

  /**
  A TCP segment within the MTU goes through TCP, IP and Ethernet and back: the ports, the
  sequence and acknowledgement numbers, the flags, the window and the exact text arrive,
  under the same condition on the hosts' byte orders.
   */
  lemma TcpSegmentSurvives(le: bool, le': bool, src: Endpoint, dst: Endpoint, broadcast: Addr, id: U16, s: Segment)
    requires IP_HEADER + TCP_HEADER + |s.data| <= ETHER_PAYLOAD_MAX
    requires src.addr != BROADCAST && src.addr != broadcast && dst.addr != BROADCAST && dst.addr != broadcast
    ensures var bs := EncodeTcp(le, src.addr, dst.addr, src.port, dst.port, s);
            var frame := EncodeEther(dst.mac, src.mac, TYPE_IP, EncodeIp(le, PROTOCOL_TCP, bs, src.addr, dst.addr, id));
            && |frame| <= 1514
            && var e := DecodeEther(frame, dst.mac);
            && (e.Some? ==> |e.value.payload| >= IP_HEADER && e.value.payload[0] % 16 * 4 <= Get16(e.value.payload, 2))
            && var ip := ReceiveIp(le', frame, dst, broadcast);
            && ip.Some? && ip.value.protocol == PROTOCOL_TCP && ip.value.payload == bs
            && DataOffset(bs) <= |bs| <= IP_PAYLOAD_MAX
            && DecodeTcp(le', ip.value.payload, ip.value.src, ip.value.dst, broadcast) ==
               if le' == le || EndsEven(s.data) then Some(TcpInput(src.port, dst.port, s)) else None
  {
    var bs := EncodeTcp(le, src.addr, dst.addr, src.port, dst.port, s);
    TcpRoundTrip(le, le', src.addr, dst.addr, broadcast, src.port, dst.port, s);
    FrameRoundTrip(le, le', PROTOCOL_TCP, bs, src, dst, id, dst, broadcast);
  }

  /**
  A UDP datagram within the MTU, to one host or to everybody: it arrives at exactly the
  hosts the frame is for, with its ports and the exact data, under the same condition.
   */
  lemma UdpDatagramSurvives(le: bool, le': bool, src: Endpoint, dst: Endpoint, own: Endpoint, broadcast: Addr, id: U16,
                            data: seq<Byte>)
    requires IP_HEADER + UDP_HEADER + |data| <= ETHER_PAYLOAD_MAX
    ensures var bs := EncodeUdp(le, src.addr, dst.addr, src.port, dst.port, data);
            var frame := EncodeEther(dst.mac, src.mac, TYPE_IP, EncodeIp(le, PROTOCOL_UDP, bs, src.addr, dst.addr, id));
            && |frame| <= 1514
            && var e := DecodeEther(frame, own.mac);
            && (e.Some? ==> |e.value.payload| >= IP_HEADER && e.value.payload[0] % 16 * 4 <= Get16(e.value.payload, 2))
            && var ip := ReceiveIp(le', frame, own, broadcast);
            && (ip.Some? <==> IsFor(dst, own, broadcast))
            && (ip.Some? ==>
                  && ip.value.protocol == PROTOCOL_UDP && ip.value.payload == bs
                  && DecodeUdp(le', ip.value.payload, ip.value.src, ip.value.dst) ==
                     if le' == le || EndsEven(data) then Some(UdpInput(src.port, dst.port, data)) else None)
  {
    var bs := EncodeUdp(le, src.addr, dst.addr, src.port, dst.port, data);
    UdpRoundTrip(le, le', src.addr, dst.addr, src.port, dst.port, data);
    FrameRoundTrip(le, le', PROTOCOL_UDP, bs, src, dst, id, own, broadcast);
  }
}
