/**
The route list of ip.c: routes are prepended, and a lookup keeps the first matching route
with the greatest mask. Addresses and masks are the host-order values of the stored
words; MatchIgnoresByteOrder is why the test on the stored words may be read this way.
 */
module Routing {
  import opened Options
  import opened Words
  import opened Headers

  datatype Route = Route(network: U32, netmask: U32, nexthop: U32, iface: nat)

  /** Bitwise AND. */
  function And(a: nat, b: nat): nat {
    if a == 0 || b == 0 then 0
    else 2 * And(a / 2, b / 2) + if a % 2 == 1 && b % 2 == 1 then 1 else 0
  }

  predicate Matches(r: Route, dst: U32) {
    And(dst, r.netmask) == r.network
  }

  ghost predicate NoMatch(routes: seq<Route>, dst: U32) {
    forall j :: 0 <= j < |routes| ==> !Matches(routes[j], dst)
  }

  /** The route at `k` wins: it matches, no match has a greater mask, none before it an equal one. */
  ghost predicate Wins(routes: seq<Route>, dst: U32, k: nat) {
    && k < |routes| && Matches(routes[k], dst)
    && forall j :: 0 <= j < |routes| && Matches(routes[j], dst) ==>
         && routes[j].netmask <= routes[k].netmask
         && (j < k ==> routes[j].netmask < routes[k].netmask)
  }

  const ADDR_ANY: U32 := 0
  const ADDR_BROADCAST: U32 := 0xffff_ffff
  const IP_HEADER_MIN := 20

  datatype Iface = Iface(unicast: U32, mtu: U16)

  datatype Plan = Refused | Via(iface: nat, nexthop: U32)

  /** The checks of ip_output once a route is found. */
  predicate Admits(f: Iface, src: U32, len: nat) {
    (src == ADDR_ANY || src == f.unicast) && IP_HEADER_MIN + len <= f.mtu
  }

  ghost predicate IfacesKnown(routes: seq<Route>, ifaces: seq<Iface>) {
    forall i :: 0 <= i < |routes| ==> routes[i].iface < |ifaces|
  }

  /** The choice of ip_output: the winning route, if it admits the datagram; to its gateway, or on the link to `dst`. */
  ghost predicate Plans(routes: seq<Route>, ifaces: seq<Iface>, src: U32, dst: U32, len: nat, plan: Plan)
    requires IfacesKnown(routes, ifaces)
  {
    match plan
    case Refused => (src == ADDR_ANY && dst == ADDR_BROADCAST) ||
                    forall k: nat :: Wins(routes, dst, k) ==> !Admits(ifaces[routes[k].iface], src, len)
    case Via(iface, nexthop) =>
      && !(src == ADDR_ANY && dst == ADDR_BROADCAST)
      && exists k: nat :: Wins(routes, dst, k) && Admits(ifaces[routes[k].iface], src, len)
                          && iface == routes[k].iface
                          && nexthop == if routes[k].nexthop != ADDR_ANY then routes[k].nexthop else dst
  }

  class RouteTable {
    var routes: seq<Route>

    constructor ()
      ensures routes == []
    {
      routes := [];
    }

    /** ip_route_add. */
    method Add(r: Route)
      modifies this
      ensures routes == [r] + old(routes)
    {
      routes := [r] + routes;
    }

    /** ip_route_lookup. */
    method Lookup(dst: U32) returns (best: Option<nat>)
      ensures match best
              case None => NoMatch(routes, dst)
              case Some(k) => Wins(routes, dst, k)
    {
      best := None;
      for i := 0 to |routes|
        invariant best.None? ==> NoMatch(routes[..i], dst)
        invariant best.Some? ==> best.value < i && Wins(routes[..i], dst, best.value)
      {
        assert routes[..i + 1] == routes[..i] + [routes[i]];
        if Matches(routes[i], dst) {
          if best.None? || routes[best.value].netmask < routes[i].netmask {
            best := Some(i);
          }
        }
      }
      assert routes[..|routes|] == routes;
    }

    /** ip_output up to ip_output_core: which interface and next hop, if any. */
    method PlanOutput(src: U32, dst: U32, len: nat, ifaces: seq<Iface>) returns (plan: Plan)
      requires IfacesKnown(routes, ifaces)
      ensures Plans(routes, ifaces, src, dst, len, plan)
    {
      if src == ADDR_ANY && dst == ADDR_BROADCAST {
        return Refused;
      }
      var best := Lookup(dst);
      if best.None? {
        return Refused;
      }
      forall k: nat | Wins(routes, dst, k)
        ensures k == best.value
      {
        WinnerIsUnique(routes, dst, k, best.value);
      }
      var route := routes[best.value];
      var iface := ifaces[route.iface];
      if src != ADDR_ANY && src != iface.unicast {
        return Refused;
      }
      if iface.mtu < IP_HEADER_MIN + len {
        return Refused;
      }
      var nexthop := dst;
      if route.nexthop != ADDR_ANY {
        nexthop := route.nexthop;
      }
      return Via(route.iface, nexthop);
    }
  }

  /** With a winning route: the datagram leaves along it, by its gateway if it has one, exactly if it is admitted. */
  lemma PlanIsViaIff(routes: seq<Route>, ifaces: seq<Iface>, src: U32, dst: U32, len: nat, plan: Plan, k: nat)
    requires IfacesKnown(routes, ifaces) && Plans(routes, ifaces, src, dst, len, plan) && Wins(routes, dst, k)
    ensures var f := ifaces[routes[k].iface];
            plan.Via? <==> !(src == 0 && dst == 0xffff_ffff) && (src == 0 || src == f.unicast) && 20 + len <= f.mtu
    ensures plan.Via? ==> plan.iface == routes[k].iface
    ensures plan.Via? && routes[k].nexthop != 0 ==> plan.nexthop == routes[k].nexthop
    ensures plan.Via? && routes[k].nexthop == 0 ==> plan.nexthop == dst
  {
    if plan.Via? {
      var j: nat :| Wins(routes, dst, j) && Admits(ifaces[routes[j].iface], src, len)
                    && plan.iface == routes[j].iface
                    && plan.nexthop == if routes[j].nexthop != ADDR_ANY then routes[j].nexthop else dst;
      WinnerIsUnique(routes, dst, j, k);
    }
  }

  lemma WinnerIsUnique(routes: seq<Route>, dst: U32, k: nat, k': nat)
    requires Wins(routes, dst, k) && Wins(routes, dst, k')
    ensures k == k'
  {
  }

  // ---- contiguous masks

  lemma {:induction false} Pow2Grows(m: nat, n: nat)
    requires m <= n
    ensures 0 < Pow2(m) <= Pow2(n) && (m < n ==> Pow2(m) < Pow2(n))
    decreases n
  {
    if m < n {
      Pow2Grows(m, n - 1);
    } else if n > 0 {
      Pow2Grows(n - 1, n - 1);
    }
  }

  lemma Pow2Next8(n: nat)
    ensures Pow2(n + 8) == 0x100 * Pow2(n)
  {
    assert Pow2(n + 2) == 4 * Pow2(n) && Pow2(n + 4) == 4 * Pow2(n + 2);
    assert Pow2(n + 6) == 4 * Pow2(n + 4) && Pow2(n + 8) == 4 * Pow2(n + 6);
  }

  lemma Pow2Of32()
    ensures Pow2(32) == TWO_32
  {
    Pow2Next8(0);
    Pow2Next8(8);
    Pow2Next8(16);
    Pow2Next8(24);
  }

  /** `n` one bits followed by `k` zero bits. */
  function Ones(n: nat, k: nat): int {
    Pow2(n + k) - Pow2(k)
  }

  /** For contiguous masks, comparing them as host-order integers compares their prefix lengths. */
  lemma MaskOrderIsPrefixOrder(m: nat, n: nat)
    requires m <= 32 && n <= 32
    ensures Ones(m, 32 - m) < Ones(n, 32 - n) <==> m < n
  {
    if m < n {
      Pow2Grows(32 - n, 32 - m);
    } else {
      Pow2Grows(32 - m, 32 - n);
    }
  }

  lemma {:induction false} AndAllOnes(d: nat, n: nat)
    requires d < Pow2(n)
    ensures Ones(n, 0) >= 0 && And(d, Ones(n, 0)) == d
    decreases n
  {
    Pow2Grows(0, n);
    if n > 0 {
      Pow2Grows(0, n - 1);
      AndAllOnes(d / 2, n - 1);
      assert Ones(n, 0) == 2 * Ones(n - 1, 0) + 1;
    }
  }

  /** AND with a contiguous mask clears the host part and keeps the prefix. */
  lemma {:induction false} AndClearsHostPart(d: nat, n: nat, k: nat)
    requires d < Pow2(n + k)
    ensures Ones(n, k) >= 0 && Pow2(k) > 0 && And(d, Ones(n, k)) == d - d % Pow2(k)
    decreases k
  {
    Pow2Grows(k, n + k);
    if k == 0 {
      AndAllOnes(d, n);
    } else {
      Pow2Grows(k - 1, n + k - 1);
      var p, m := Pow2(k - 1), Ones(n, k - 1);
      AndClearsHostPart(d / 2, n, k - 1);
      AndDoubled(d, m);
      HalvesRemainder(d, p);
      assert Ones(n, k) == 2 * m && Pow2(k) == 2 * p;
    }
  }

  lemma AndDoubled(d: nat, m: nat)
    ensures And(d, 2 * m) == 2 * And(d / 2, m)
  {
    assert 2 * m / 2 == m && 2 * m % 2 == 0;
  }

  lemma HalvesRemainder(d: nat, p: nat)
    requires p > 0
    ensures d % (2 * p) == 2 * (d / 2 % p) + d % 2
  {
    var q, r := d / 2 / p, d / 2 % p;
    assert d == 2 * (q * p + r) + d % 2;
    assert d == q * (2 * p) + (2 * r + d % 2);
    assert 2 * r + d % 2 < 2 * p;
    DivModUnique(d, 2 * p, q, 2 * r + d % 2);
  }

  lemma DivModUnique(d: nat, p: nat, q: nat, r: nat)
    requires p > 0 && r < p && d == q * p + r
    ensures d % p == r && d / p == q
  {
    var q', r' := d / p, d % p;
    assert d == q' * p + r' && 0 <= r' < p;
    assert (q' - q) * p == r - r';
    if q' != q {
      MultipleIsFar(q' - q, p);
    }
  }

  lemma {:induction false} TimesAtLeast(a: nat, p: nat)
    requires a >= 1
    ensures a * p >= p
  {
    if a > 1 {
      TimesAtLeast(a - 1, p);
      assert a * p == (a - 1) * p + p;
    }
  }

  lemma MultipleIsFar(a: int, p: int)
    requires p > 0 && a != 0
    ensures a * p >= p || a * p <= -p
  {
    if a >= 1 {
      TimesAtLeast(a, p);
    } else {
      TimesAtLeast(-a, p);
      assert a * p == -(-a * p);
    }
  }

  // ---- byte order

  lemma AndStep(a: nat, b: nat)
    ensures And(a, b) == 2 * And(a / 2, b / 2) + if a % 2 == 1 && b % 2 == 1 then 1 else 0
  {
  }

  lemma {:induction false} AndAtMost(a: nat, b: nat)
    ensures And(a, b) <= a
    decreases a
  {
    if a != 0 && b != 0 {
      AndAtMost(a / 2, b / 2);
    }
  }

  /** AND works on the high and the low part separately. */
  lemma {:induction false} AndParts(n: nat, x: nat, u: nat, y: nat, v: nat)
    requires u < Pow2(n) && v < Pow2(n)
    ensures Pow2(n) * x + u >= 0 && Pow2(n) * y + v >= 0
    ensures And(Pow2(n) * x + u, Pow2(n) * y + v) == Pow2(n) * And(x, y) + And(u, v)
    decreases n
  {
    if n == 0 {
      assert And(u, v) == 0;
    } else {
      var p := Pow2(n - 1);
      var a, b := Pow2(n) * x + u, Pow2(n) * y + v;
      AndParts(n - 1, x, u / 2, y, v / 2);
      HalfOfParts(p, x, u);
      HalfOfParts(p, y, v);
      AndStep(a, b);
      AndStep(u, v);
      DoubledProduct(p, And(x, y));
    }
  }

  lemma DoubledProduct(p: nat, x: nat)
    ensures 2 * (p * x) == 2 * p * x
  {
  }

  lemma HalfOfParts(p: nat, x: nat, u: nat)
    ensures 2 * p * x + u >= 0 && (2 * p * x + u) / 2 == p * x + u / 2 && (2 * p * x + u) % 2 == u % 2
  {
    DoubledProduct(p, x);
  }

  /** The word with these bytes, the first most significant. */
  function Word32(a: Byte, b: Byte, c: Byte, d: Byte): U32 {
    0x100 * (0x100 * (0x100 * (a as int) + b) + c) + d
  }

  function AndByte(a: Byte, b: Byte): Byte {
    AndAtMost(a, b);
    And(a, b)
  }

  lemma AndLowByte(x: nat, u: Byte, y: nat, v: Byte)
    ensures And(0x100 * x + u, 0x100 * y + v) == 0x100 * And(x, y) + AndByte(u, v)
  {
    Pow2Next8(0);
    AndParts(8, x, u, y, v);
  }

  lemma AndBytes(a: Byte, b: Byte, c: Byte, d: Byte, a': Byte, b': Byte, c': Byte, d': Byte)
    ensures And(Word32(a, b, c, d), Word32(a', b', c', d')) ==
            Word32(AndByte(a, a'), AndByte(b, b'), AndByte(c, c'), AndByte(d, d'))
  {
    AndLowByte(a, b, a', b');
    AndLowByte(0x100 * (a as int) + b, c, 0x100 * (a' as int) + b', c');
    AndLowByte(0x100 * (0x100 * (a as int) + b) + c, d, 0x100 * (0x100 * (a' as int) + b') + c', d');
  }

  lemma SwapOfBytes(v: U32) returns (a: Byte, b: Byte, c: Byte, d: Byte)
    ensures v == Word32(a, b, c, d) && Swap32(v) == Word32(d, c, b, a)
  {
    a, b, c, d := v / 0x100_0000, v / 0x1_0000 % 0x100, v / 0x100 % 0x100, v % 0x100;
    assert v / 0x1_0000 == 0x100 * (a as int) + b;
    assert v / 0x100 == 0x100 * (0x100 * (a as int) + b) + c;
  }

  lemma SwapOfWord(a: Byte, b: Byte, c: Byte, d: Byte)
    ensures Swap32(Word32(a, b, c, d)) == Word32(d, c, b, a)
  {
    Digits(a, b, c, d, Word32(a, b, c, d));
  }

  lemma AndSwapped(v: U32, w: U32)
    ensures And(v, w) < TWO_32 && And(Swap32(v), Swap32(w)) == Swap32(And(v, w))
  {
    var a, b, c, d := SwapOfBytes(v);
    var a', b', c', d' := SwapOfBytes(w);
    AndBytes(a, b, c, d, a', b', c', d');
    AndBytes(d, c, b, a, d', c', b', a');
    SwapOfWord(AndByte(a, a'), AndByte(b, b'), AndByte(c, c'), AndByte(d, d'));
  }

  /** The mask test decides the same on words in network order as on words in host order. */
  lemma MatchIgnoresByteOrder(r: Route, dst: U32)
    ensures Matches(r, dst) <==>
            Matches(r.(network := Swap32(r.network), netmask := Swap32(r.netmask)), Swap32(dst))
  {
    AndSwapped(dst, r.netmask);
    Swap32ReversesBytes(r.network);
    Swap32ReversesBytes(And(dst, r.netmask));
  }

  // ---- longest-prefix match

  /** The route's mask is the contiguous mask of an `n`-bit prefix. */
  predicate HasPrefix(r: Route, n: nat) {
    n <= 32 && r.netmask == Ones(n, 32 - n)
  }

  /** The first `n` bits agree, and the rest of the network address is zero. */
  predicate InPrefix(dst: nat, network: nat, n: nat) {
    n <= 32 &&
    var size := Pow2(32 - n);
    size > 0 && network % size == 0 && dst / size == network / size
  }

  lemma MatchesIsInPrefix(r: Route, dst: U32, n: nat)
    requires HasPrefix(r, n)
    ensures Matches(r, dst) <==> InPrefix(dst, r.network, n)
  {
    var size := Pow2(32 - n);
    Pow2Of32();
    AndClearsHostPart(dst, n, 32 - n);
    PrefixEquality(dst, r.network, size);
  }

  lemma PrefixEquality(d: nat, net: nat, size: nat)
    requires size > 0
    ensures d - d % size == net <==> net % size == 0 && d / size == net / size
  {
    var q, r := d / size, d % size;
    assert d == q * size + r;
    assert net == net / size * size + net % size;
    if net == d - r {
      DivModUnique(net, size, q, 0);
    }
  }

  /** The list after the routes `adds` were added in that order. */
  function Table(adds: seq<Route>): seq<Route> {
    if adds == [] then [] else [adds[|adds| - 1]] + Table(adds[..|adds| - 1])
  }

  lemma {:induction false} TableAt(adds: seq<Route>, i: nat)
    requires i < |adds|
    ensures |Table(adds)| == |adds| && Table(adds)[|adds| - 1 - i] == adds[i]
  {
    var n := |adds| - 1;
    if i < n {
      TableAt(adds[..n], i);
    } else if n > 0 {
      TableAt(adds[..n], 0);
    }
  }

  /**
  After any sequence of additions with contiguous masks, a lookup finds a matching route of
  greatest prefix length, the most recently added among equals.
   */
  lemma LongestPrefixMatch(adds: seq<Route>, lens: seq<nat>, dst: U32, k: nat, j: nat)
    requires |lens| == |adds| && forall i :: 0 <= i < |adds| ==> HasPrefix(adds[i], lens[i])
    requires k < |adds| && Wins(Table(adds), dst, |adds| - 1 - k)
    requires j < |adds| && InPrefix(dst, adds[j].network, lens[j])
    ensures InPrefix(dst, adds[k].network, lens[k])
    ensures lens[j] < lens[k] || (lens[j] == lens[k] && j <= k)
  {
    TableAt(adds, k);
    TableAt(adds, j);
    MatchesIsInPrefix(adds[k], dst, lens[k]);
    MatchesIsInPrefix(adds[j], dst, lens[j]);
    MaskOrderIsPrefixOrder(lens[j], lens[k]);
    MaskOrderIsPrefixOrder(lens[k], lens[j]);
  }

  /** A lookup fails only when no added route contains the destination. */
  lemma LookupFailsIff(adds: seq<Route>, lens: seq<nat>, dst: U32)
    requires |lens| == |adds| && forall i :: 0 <= i < |adds| ==> HasPrefix(adds[i], lens[i])
    ensures NoMatch(Table(adds), dst) <==>
            forall i :: 0 <= i < |adds| ==> !InPrefix(dst, adds[i].network, lens[i])
  {
    forall i | 0 <= i < |adds|
      ensures |Table(adds)| == |adds|
      ensures Matches(Table(adds)[|adds| - 1 - i], dst) <==> InPrefix(dst, adds[i].network, lens[i])
    {
      TableAt(adds, i);
      MatchesIsInPrefix(adds[i], dst, lens[i]);
    }
    if |adds| > 0 {
      assert |Table(adds)| == |adds| by {
        TableAt(adds, 0);
      }
      forall j | 0 <= j < |adds|
        ensures Matches(Table(adds)[j], dst) <==>
                InPrefix(dst, adds[|adds| - 1 - j].network, lens[|adds| - 1 - j])
      {
        assert j == |adds| - 1 - (|adds| - 1 - j);
      }
    }
  }
}
