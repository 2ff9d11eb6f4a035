/**
The table of PCBs in socket mode: which PCB a segment or a command meets, and how open,
bind, listen, connect, passive open, accept and release change the table. What happens
inside one connection is the subject of TcpSpec.
 */
module TcpTable {
  import opened Options
  import opened Words
  import opened Ports
  import opened TcpSpec

  type SlotId = i: int | 0 <= i < PCB_COUNT

  /** `parent` and `backlog` hold slot numbers where the source holds pointers. */
  datatype Slot = Slot(state: State, local: Endpoint, foreign: Endpoint, parent: Option<SlotId>, backlog: seq<SlotId>)

  type Table = t: seq<Slot> | |t| == PCB_COUNT witness seq(PCB_COUNT, _ => ZERO)

  const ZERO := Slot(Free, ANY, ANY, None, [])

  predicate AtLocal(s: Slot, local: Endpoint) {
    (s.local.addr == 0 || s.local.addr == local.addr) && s.local.port == local.port
  }

  predicate Exact(s: Slot, local: Endpoint, foreign: Endpoint) {
    AtLocal(s, local) && s.foreign == foreign
  }

  predicate Listening(s: Slot, local: Endpoint) {
    AtLocal(s, local) && s.state == Listen && s.foreign == ANY
  }

  /**
  The choice of tcp_pcb_select: the first exact match; failing that the last listener with
  a wildcard foreign endpoint. Without a foreign endpoint, the first slot at the local one.
   */
  ghost predicate Selects(t: Table, local: Endpoint, foreign: Option<Endpoint>, r: Option<SlotId>) {
    match (foreign, r)
    case (None, None) => forall i :: 0 <= i < |t| ==> !AtLocal(t[i], local)
    case (None, Some(k)) => AtLocal(t[k], local) && forall i :: 0 <= i < k ==> !AtLocal(t[i], local)
    case (Some(f), None) => forall i :: 0 <= i < |t| ==> !Exact(t[i], local, f) && !Listening(t[i], local)
    case (Some(f), Some(k)) =>
      (|| (Exact(t[k], local, f) && forall i :: 0 <= i < k ==> !Exact(t[i], local, f))
       || (&& Listening(t[k], local)
           && (forall i :: 0 <= i < |t| ==> !Exact(t[i], local, f))
           && (forall i :: k < i < |t| ==> !Listening(t[i], local))))
  }

  lemma SelectionIsUnique(t: Table, local: Endpoint, foreign: Option<Endpoint>, r: Option<SlotId>, r': Option<SlotId>)
    requires Selects(t, local, foreign, r) && Selects(t, local, foreign, r')
    ensures r == r'
  {
  }

  /**
  A segment is given to some PCB exactly if its 4-tuple is taken, the local address
  possibly left open, or a listener is at its local port and address, or at any address.
   */
  lemma SegmentFindsPcbIff(t: Table, local: Endpoint, foreign: Endpoint, r: Option<SlotId>)
    requires Selects(t, local, Some(foreign), r)
    ensures r.Some? <==>
            exists i: SlotId :: && t[i].local.port == local.port && t[i].local.addr in {0, local.addr}
                                && (t[i].foreign == foreign || (t[i].state == Listen && t[i].foreign == Endpoint(0, 0)))
  {
    match r
    case None =>
      forall i: SlotId
        ensures !Exact(t[i], local, foreign) && !Listening(t[i], local)
      {
      }
    case Some(k) => assert Exact(t[k], local, foreign) || Listening(t[k], local);
  }

  /** A listener for all addresses takes the SYN of a stranger, unless one in a later slot also listens for it. */
  lemma ListenerIsFound(t: Table, l: SlotId, local: Endpoint, foreign: Endpoint)
    requires t[l].state == Listen && t[l].foreign == Endpoint(0, 0)
    requires t[l].local.port == local.port && t[l].local.addr in {0, local.addr}
    requires forall i :: 0 <= i < |t| && t[i].foreign == foreign ==>
               t[i].local.port != local.port || t[i].local.addr !in {0, local.addr}
    ensures Selects(t, local, Some(foreign), Some(l)) <==>
            forall i :: l < i < |t| && t[i].state == Listen && t[i].foreign == Endpoint(0, 0) ==>
              t[i].local.port != local.port || t[i].local.addr !in {0, local.addr}
  {
    forall i | 0 <= i < |t|
      ensures !Exact(t[i], local, foreign)
    {
    }
    forall i | 0 <= i < |t|
      ensures Listening(t[i], local) <==>
              && t[i].state == Listen && t[i].foreign == Endpoint(0, 0)
              && t[i].local.port == local.port && t[i].local.addr in {0, local.addr}
    {
    }
  }

  /** The child of a SYN waits, once its handshake ends, last in the backlog of the listener that took the SYN. */
  lemma ForkedChildJoinsBacklog(t: Table, local: Endpoint, foreign: Endpoint, l: SlotId, n: SlotId)
    requires Allowed(t, Incoming(local, foreign, l, n))
    ensures var t1 := Next(t, Incoming(local, foreign, l, n));
            && t1[n].local == local && t1[n].foreign == foreign && Allowed(t1, Establish(n))
            && var t2 := Next(t1, Establish(n));
            && t2[n].state == Established && t2[l].backlog == t[l].backlog + [n] && t2[l].state == Listen
            && forall i: SlotId :: i != n && i != l ==> t2[i] == t[i]
  {
  }

  ghost predicate FirstFree(t: Table, n: SlotId) {
    t[n].state == Free && forall i :: 0 <= i < n ==> t[i].state != Free
  }

  /** The port the search settles on: the least one at which select finds nothing. */
  ghost predicate FindsPort(t: Table, addr: U32, foreign: Endpoint, p: U16) {
    && PORT_MIN <= p
    && Selects(t, Endpoint(addr, p), Some(foreign), None)
    && forall q: U16 {:trigger Endpoint(addr, q)} :: PORT_MIN <= q < p ==>
         !Selects(t, Endpoint(addr, q), Some(foreign), None)
  }

  // ---- the operations on tables

  datatype Call =
    | Open(n: SlotId)
    | Bind(id: SlotId, local: Endpoint)
    | ListenOn(id: SlotId)
    | ConnectTo(id: SlotId, local: Endpoint, foreign: Endpoint)
    | Incoming(local: Endpoint, foreign: Endpoint, listener: SlotId, n: SlotId)
    | Establish(id: SlotId)
    | Accept(id: SlotId)
    | Move(id: SlotId, s: State)
    | Release(id: SlotId, busy: set<SlotId>)

  /**
  When the operation goes through. On the slots in `busy` a thread waits; `Move` stands for
  every other state change.
   */
  ghost predicate Allowed(t: Table, call: Call) {
    match call
    case Open(n) => FirstFree(t, n)
    case Bind(id, local) => t[id].state != Free && Selects(t, local, None, None)
    case ListenOn(id) => t[id].state != Free
    case ConnectTo(id, local, foreign) =>
      && t[id].state != Free
      && (t[id].local.addr == 0 || t[id].local.addr == local.addr)
      && (if t[id].local.port != 0 then local.port == t[id].local.port
          else FindsPort(t, local.addr, foreign, local.port))
    case Incoming(local, foreign, listener, n) =>
      && Selects(t, local, Some(foreign), Some(listener)) && t[listener].state == Listen
      && FirstFree(t, n)
    case Establish(id) => t[id].state == SynReceived
    case Accept(id) => t[id].state == Listen && t[id].backlog != []
    case Move(id, s) =>
      && t[id].state != Free && t[id].state != s
      && s != Free && s != Listen && s != SynSent && (s == SynReceived ==> t[id].state == SynSent)
      && (t[id].state == SynReceived ==> s != Established)
    case Release(_, _) => true
  }

  /** Connections established through a listener wait in its backlog. */
  function Promoted(t: Table, id: SlotId): Table {
    var t1: Table := t[id := t[id].(state := Established)];
    match t[id].parent
    case None => t1
    case Some(p) => t1[p := t1[p].(backlog := t1[p].backlog + [id])]
  }

  function Waiting(t: seq<Slot>): nat {
    if t == [] then 0 else Waiting(t[..|t| - 1]) + |t[|t| - 1].backlog|
  }

  lemma {:induction false} WaitingUpdate(t: seq<Slot>, i: nat, s: Slot)
    requires i < |t|
    ensures Waiting(t[i := s]) == Waiting(t) - |t[i].backlog| + |s.backlog|
  {
    var n := |t| - 1;
    if i < n {
      WaitingUpdate(t[..n], i, s);
      assert t[i := s][..n] == t[..n][i := s];
    } else {
      assert t[i := s][..n] == t[..n];
    }
  }

  function Popped(t: Table, id: SlotId): (r: Table)
    requires t[id].backlog != []
    ensures Waiting(r) == Waiting(t) - 1
  {
    WaitingUpdate(t, id, t[id].(backlog := t[id].backlog[1..]));
    t[id := t[id].(backlog := t[id].backlog[1..])]
  }

  /**
  tcp_pcb_release: refused while a thread waits on the PCB; otherwise the children in the
  backlog are released first, then the slot itself.
   */
  function Released(t: Table, id: SlotId, busy: set<SlotId>): (r: Table)
    ensures Waiting(r) <= Waiting(t)
    decreases Waiting(t)
  {
    if id in busy then t
    else if t[id].backlog == [] then
      WaitingUpdate(t, id, ZERO);
      t[id := ZERO]
    else
      Released(Released(Popped(t, id), t[id].backlog[0], busy), id, busy)
  }

  function Next(t: Table, call: Call): Table
    requires Allowed(t, call)
  {
    match call
    case Open(n) => t[n := t[n].(state := Closed)]
    case Bind(id, local) => t[id := t[id].(local := local)]
    case ListenOn(id) => t[id := t[id].(state := Listen)]
    case ConnectTo(id, local, foreign) => t[id := t[id].(local := local, foreign := foreign, state := SynSent)]
    case Incoming(local, foreign, listener, n) =>
      t[n := t[n].(state := SynReceived, local := local, foreign := foreign, parent := Some(listener))]
    case Establish(id) => Promoted(t, id)
    case Accept(id) => Popped(t, id)
    case Move(id, s) => t[id := t[id].(state := s)]
    case Release(id, busy) => Released(t, id, busy)
  }

  ghost predicate AllFreed(t: Table, ids: seq<SlotId>, busy: set<SlotId>) {
    forall k :: 0 <= k < |ids| ==> ids[k] in busy || t[ids[k]] == ZERO
  }

  /** Every slot is as it was, or freed together with those of its backlog that nobody waits on. */
  ghost predicate Frees(t: Table, r: Table, busy: set<SlotId>) {
    forall j :: 0 <= j < |t| ==> r[j] == t[j] || (r[j] == ZERO && j !in busy && AllFreed(r, t[j].backlog, busy))
  }

  lemma FreesTogether(t: Table, t1: Table, r: Table, busy: set<SlotId>)
    requires Frees(t, t1, busy) && Frees(t1, r, busy)
    ensures Frees(t, r, busy)
  {
    forall j | 0 <= j < |t|
      ensures r[j] == t[j] || (r[j] == ZERO && j !in busy && AllFreed(r, t[j].backlog, busy))
    {
      if t1[j] != t[j] {
        assert t1[j] == ZERO && r[j] == ZERO && AllFreed(t1, t[j].backlog, busy);
      }
    }
  }

  lemma FreesAfterPop(t: Table, id: SlotId, r: Table, busy: set<SlotId>)
    requires t[id].backlog != [] && id !in busy && Frees(Popped(t, id), r, busy) && r[id] == ZERO
    requires t[id].backlog[0] in busy || r[t[id].backlog[0]] == ZERO
    ensures Frees(t, r, busy)
  {
    var backlog := t[id].backlog;
    assert backlog == [backlog[0]] + Popped(t, id)[id].backlog;
  }

  /**
  Releasing empties slots and does nothing else; with a slot goes its whole backlog, and
  no slot goes that a thread waits on.
   */
  lemma {:induction false} ReleaseOnlyFrees(t: Table, id: SlotId, busy: set<SlotId>)
    ensures var r := Released(t, id, busy); (if id in busy then r == t else r[id] == ZERO) && Frees(t, r, busy)
    decreases Waiting(t)
  {
    if id !in busy && t[id].backlog != [] {
      var t1 := Popped(t, id);
      var child := t[id].backlog[0];
      ReleaseOnlyFrees(t1, child, busy);
      var t2 := Released(t1, child, busy);
      ReleaseOnlyFrees(t2, id, busy);
      var r := Released(t2, id, busy);
      FreesTogether(t1, t2, r, busy);
      FreesAfterPop(t, id, r, busy);
    }
  }

  /** By counting: a caller without a port finds one among the first sixteen candidates. */
  lemma PortAvailable(t: Table, id: SlotId, addr: U32, foreign: Endpoint) returns (p: U16)
    requires t[id].local.port == 0
    ensures 49152 <= p < 49152 + 16
    ensures Selects(t, Endpoint(addr, p), Some(foreign), None)
  {
    var candidates: seq<U16> := seq(PCB_COUNT, i requires 0 <= i < PCB_COUNT => PORT_MIN + i);
    var held: seq<U16> := seq(PCB_COUNT, i requires 0 <= i < PCB_COUNT => t[i].local.port);
    var k := SpareCandidate(candidates, held, id);
    p := candidates[k];
    forall i | 0 <= i < |t|
      ensures !AtLocal(t[i], Endpoint(addr, p))
    {
      assert held[i] == t[i].local.port;
    }
  }

  /** The static array `pcbs`. */
  class PcbTable {
    const slots: array<Slot>

    ghost predicate Valid() {
      slots.Length == PCB_COUNT
    }

    ghost function View(): Table
      requires Valid()
      reads slots
    {
      slots[..]
    }

    constructor ()
      ensures Valid() && fresh(slots) && View() == seq(PCB_COUNT, _ => ZERO)
    {
      slots := new Slot[PCB_COUNT](_ => ZERO);
    }

    /** tcp_pcb_select. */
    method Select(local: Endpoint, foreign: Option<Endpoint>) returns (r: Option<SlotId>)
      requires Valid()
      ensures Selects(View(), local, foreign, r)
    {
      r := None;
      for i := 0 to slots.Length
        invariant foreign == None ==> r == None && forall j :: 0 <= j < i ==> !AtLocal(slots[j], local)
        invariant foreign.Some? ==> forall j :: 0 <= j < i ==> !Exact(slots[j], local, foreign.value)
        invariant foreign.Some? ==>
          match r
          case None => forall j :: 0 <= j < i ==> !Listening(slots[j], local)
          case Some(k) => k < i && Listening(slots[k], local) && forall j :: k < j < i ==> !Listening(slots[j], local)
      {
        if (slots[i].local.addr == 0 || slots[i].local.addr == local.addr) && slots[i].local.port == local.port {
          if foreign == None {
            return Some(i);
          }
          if slots[i].foreign == foreign.value {
            return Some(i);
          }
          if slots[i].state == Listen && slots[i].foreign == ANY {
            r := Some(i);
          }
        }
      }
    }

    /** tcp_pcb_alloc: no slot when none is free. */
    method Alloc() returns (n: Option<SlotId>)
      requires Valid()
      modifies slots
      ensures n == None ==> View() == old(View()) && forall i :: 0 <= i < PCB_COUNT ==> View()[i].state != Free
      ensures n.Some? ==> Allowed(old(View()), Open(n.value)) && View() == Next(old(View()), Open(n.value))
    {
      for i := 0 to slots.Length
        invariant slots[..] == old(slots[..])
        invariant forall j :: 0 <= j < i ==> slots[j].state != Free
      {
        if slots[i].state == Free {
          slots[i] := slots[i].(state := Closed);
          return Some(i);
        }
      }
      n := None;
    }

    /** tcp_bind on a PCB that tcp_pcb_get found. */
    method BindCall(id: SlotId, local: Endpoint) returns (ok: bool)
      requires Valid() && slots[id].state != Free
      modifies slots
      ensures ok <==> Allowed(old(View()), Bind(id, local))
      ensures View() == if ok then Next(old(View()), Bind(id, local)) else old(View())
    {
      var exist := Select(local, None);
      if exist != None {
        return false;
      }
      slots[id] := slots[id].(local := local);
      return true;
    }

    /** The search of tcp_connect; it never exhausts the range. */
    method FindPort(id: SlotId, addr: U32, foreign: Endpoint) returns (p: U16)
      requires Valid() && slots[id].local.port == 0
      ensures FindsPort(View(), addr, foreign, p) && p < PORT_MIN + PCB_COUNT
    {
      ghost var spare := PortAvailable(View(), id, addr, foreign);
      p := PORT_MIN;
      while p <= PORT_MAX
        invariant PORT_MIN <= p <= spare
        invariant forall q: U16 {:trigger Endpoint(addr, q)} :: PORT_MIN <= q < p ==>
                    !Selects(View(), Endpoint(addr, q), Some(foreign), None)
        decreases PORT_MAX - p
      {
        var found := Select(Endpoint(addr, p), Some(foreign));
        if found == None {
          return;
        }
        if Selects(View(), Endpoint(addr, p), Some(foreign), None) {
          SelectionIsUnique(View(), Endpoint(addr, p), Some(foreign), found, None);
        }
        p := p + 1;
      }
    }

    /** tcp_connect up to the wait; `unicast` is the address of the interface towards `foreign`. */
    method ConnectCall(id: SlotId, foreign: Endpoint, unicast: U32) returns (local: Endpoint)
      requires Valid() && slots[id].state != Free
      modifies slots
      ensures local.addr == if old(slots[id].local.addr) == 0 then unicast else old(slots[id].local.addr)
      ensures Allowed(old(View()), ConnectTo(id, local, foreign))
      ensures View() == Next(old(View()), ConnectTo(id, local, foreign))
    {
      local := slots[id].local;
      if local.addr == 0 {
        local := local.(addr := unicast);
      }
      if local.port == 0 {
        var p := FindPort(id, local.addr, foreign);
        local := local.(port := p);
      }
      slots[id] := slots[id].(local := local, foreign := foreign, state := SynSent);
    }

    /** A SYN for a listener: `child` is none when the segment finds no listener or no slot is free. */
    method PassiveOpen(local: Endpoint, foreign: Endpoint) returns (child: Option<SlotId>, ghost listener: SlotId)
      requires Valid()
      modifies slots
      ensures child == None ==> View() == old(View())
      ensures child == None ==> forall l: SlotId, n: SlotId :: !Allowed(old(View()), Incoming(local, foreign, l, n))
      ensures child.Some? ==>
        var call := Incoming(local, foreign, listener, child.value);
        Allowed(old(View()), call) && View() == Next(old(View()), call)
    {
      listener := 0;
      var found := Select(local, Some(foreign));
      forall r | Selects(View(), local, Some(foreign), r)
        ensures r == found
      {
        SelectionIsUnique(View(), local, Some(foreign), r, found);
      }
      if found == None || slots[found.value].state != Listen {
        return None, listener;
      }
      listener := found.value;
      child := Alloc();
      if child.Some? {
        var n := child.value;
        slots[n] := slots[n].(parent := found);
        slots[n] := slots[n].(local := local);
        slots[n] := slots[n].(foreign := foreign);
        slots[n] := slots[n].(state := SynReceived);
      }
    }

    /** The handshake ends: the child joins its listener's backlog. */
    method Promote(id: SlotId)
      requires Valid() && slots[id].state == SynReceived
      modifies slots
      ensures View() == Next(old(View()), Establish(id))
    {
      slots[id] := slots[id].(state := Established);
      match slots[id].parent
      case None =>
      case Some(p) =>
        slots[p] := slots[p].(backlog := slots[p].backlog + [id]);
    }

    /** One turn of tcp_accept: none when the caller has to wait. */
    method AcceptCall(id: SlotId) returns (child: Option<SlotId>)
      requires Valid() && slots[id].state == Listen
      modifies slots
      ensures child == None <==> old(slots[id].backlog) == []
      ensures child == None ==> View() == old(View())
      ensures child.Some? ==> child.value == old(slots[id].backlog)[0] && View() == Next(old(View()), Accept(id))
    {
      if slots[id].backlog == [] {
        return None;
      }
      child := Some(slots[id].backlog[0]);
      slots[id] := slots[id].(backlog := slots[id].backlog[1..]);
    }

    /** tcp_pcb_release; on the PCBs in `busy` a thread waits, which destroying their context reports. */
    method ReleaseCall(id: SlotId, busy: set<SlotId>)
      requires Valid()
      modifies slots
      ensures View() == Released(old(View()), id, busy)
      decreases Waiting(View())
    {
      if id in busy {
        return;
      }
      while slots[id].backlog != []
        invariant Released(View(), id, busy) == Released(old(View()), id, busy)
        invariant Waiting(View()) <= Waiting(old(View()))
        decreases Waiting(View())
      {
        ghost var t := View();
        var child := slots[id].backlog[0];
        slots[id] := slots[id].(backlog := slots[id].backlog[1..]);
        assert View() == Popped(t, id);
        ReleaseCall(child, busy);
      }
      slots[id] := ZERO;
    }
  }
}
