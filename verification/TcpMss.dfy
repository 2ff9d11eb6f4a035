/**
The MSS that tcp_send derives from an interface, against what IP admits on the route its
segments take.
 */
module TcpMss {
  import opened Words
  import opened TcpSpec
  import opened TcpSend
  import opened TcpSendCall
  import opened Headers
  import opened Routing

  const HEADERS := 40                   // IP and TCP headers

  /** With the MSS that tcp_send takes from the interface, no datagram exceeds its MTU or the output buffer. */
  lemma SegmentsFitMtu(rounds: seq<Round>, data: seq<Byte>, mss: nat, mtu: U16, i: nat)
    requires mss > 0 && HEADERS + mss == mtu && rounds != [] && IsCall(rounds, data, mss)
    requires rounds[0].t.sndNxt + |data| < TWO_32 && i < |Call(rounds).out|
    ensures HEADERS + |Call(rounds).out[i].data| <= mtu && |Call(rounds).out[i].data| <= MAX_TEXT
  {
    CallSegmentation(rounds, data, mss);
    AtMostMss(Call(rounds).out, rounds[0].t.sndNxt, mss, i);
  }

  lemma TextLeavesIff(routes: seq<Route>, ifaces: seq<Iface>, local: U32, foreign: U32, away: nat, len: nat, plan: Plan)
    requires IfacesKnown(routes, ifaces) && local != ADDR_ANY && Wins(routes, foreign, away)
    requires Plans(routes, ifaces, local, foreign, TCP_HEADER + len, plan)
    ensures var f := ifaces[routes[away].iface];
            && (plan.Via? <==> local == f.unicast && HEADERS + len <= f.mtu)
            && (plan.Via? ==>
                  && plan.iface == routes[away].iface
                  && plan.nexthop == if routes[away].nexthop != 0 then routes[away].nexthop else foreign)
  {
    PlanIsViaIff(routes, ifaces, local, foreign, TCP_HEADER + len, plan, away);
  }

  /**
  tcp_send takes the MSS from the interface towards the local address, while IP sends along
  the route to the foreign one: a segment of the call leaves exactly if that route's
  interface has the local address and an MTU for it, so always if the MTU is no smaller.
   */
  lemma SegmentsLeaveIff(rounds: seq<Round>, data: seq<Byte>, mss: nat, i: nat, routes: seq<Route>,
                         ifaces: seq<Iface>, local: U32, foreign: U32, home: nat, away: nat, plan: Plan)
    requires IfacesKnown(routes, ifaces) && local != ADDR_ANY
    requires Wins(routes, local, home) && Wins(routes, foreign, away)
    requires mss > 0 && HEADERS + mss == ifaces[routes[home].iface].mtu && rounds != [] && IsCall(rounds, data, mss)
    requires rounds[0].t.sndNxt + |data| < TWO_32 && i < |Call(rounds).out|
    requires Plans(routes, ifaces, local, foreign, TCP_HEADER + |Call(rounds).out[i].data|, plan)
    ensures var f := ifaces[routes[away].iface];
            && (plan.Via? <==> local == f.unicast && HEADERS + |Call(rounds).out[i].data| <= f.mtu)
            && (plan.Via? ==>
                  && plan.iface == routes[away].iface
                  && plan.nexthop == if routes[away].nexthop != 0 then routes[away].nexthop else foreign)
            && (local == f.unicast && ifaces[routes[home].iface].mtu <= f.mtu ==> plan.Via?)
  {
    SegmentsFitMtu(rounds, data, mss, ifaces[routes[home].iface].mtu, i);
    TextLeavesIff(routes, ifaces, local, foreign, away, |Call(rounds).out[i].data|, plan);
  }
}
