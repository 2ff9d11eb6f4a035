/**
The UDP sockets: which socket a datagram goes to, the dynamic port, and the receive queue
from which each call of recvfrom takes one datagram, cut to the caller's buffer.
 */
module Udp {
  import opened Options
  import opened Words
  import opened Ports
  import Headers

  type SlotId = i: int | 0 <= i < PCB_COUNT

  datatype State = Free | Open | Closing

  datatype Datagram = Datagram(foreign: Endpoint, data: seq<Byte>)

  datatype Slot = Slot(state: State, local: Endpoint, queue: seq<Datagram>)

  const ZERO := Slot(Free, ANY, [])

  type Table = t: seq<Slot> | |t| == PCB_COUNT witness seq(PCB_COUNT, _ => ZERO)

  predicate At(s: Slot, local: Endpoint) {
    s.state == Open && (s.local.addr == 0 || s.local.addr == local.addr) && s.local.port == local.port
  }

  /** The choice of udp_pcb_select: the first open socket at the endpoint. */
  ghost predicate Selects(t: Table, local: Endpoint, r: Option<SlotId>) {
    match r
    case None => forall i :: 0 <= i < |t| ==> !At(t[i], local)
    case Some(k) => At(t[k], local) && forall i :: 0 <= i < k ==> !At(t[i], local)
  }

  /** The search of udp_sendto settles on the least port, counted in host order, that is free. */
  ghost predicate FindsPort(le: bool, t: Table, addr: U32, p: U16) {
    && PORT_MIN <= p
    && Selects(t, Endpoint(addr, Headers.Hton16(le, p)), None)
    && forall q: U16 :: PORT_MIN <= q < p ==> !Selects(t, Endpoint(addr, Headers.Hton16(le, q)), None)
  }

  function Candidates(le: bool): seq<U16> {
    seq<U16>(PCB_COUNT, i requires 0 <= i < PCB_COUNT => Headers.Hton16(le, PORT_MIN + i))
  }

  /** By counting: a socket without a port finds one among the first sixteen candidates. */
  lemma PortAvailable(le: bool, t: Table, id: SlotId, addr: U32) returns (p: U16)
    requires t[id].local.port == 0
    ensures 49152 <= p < 49152 + 16
    ensures Selects(t, Endpoint(addr, Headers.Hton16(le, p)), None)
  {
    var candidates := Candidates(le);
    var held: seq<U16> := seq(PCB_COUNT, i requires 0 <= i < PCB_COUNT => t[i].local.port);
    forall i | 0 <= i < PCB_COUNT
      ensures Headers.Hton16(le, candidates[i]) == PORT_MIN + i
    {
      Headers.ConvertedStoreIsNetworkOrder(le, PORT_MIN + i, 0);
    }
    var k := SpareCandidate(candidates, held, id);
    p := PORT_MIN + k;
    forall i | 0 <= i < |t|
      ensures !At(t[i], Endpoint(addr, candidates[k]))
    {
      assert held[i] == t[i].local.port;
    }
  }

  // ---- runs

  datatype Call =
    | OpenCall(id: SlotId)
    | Bind(id: SlotId, local: Endpoint)
    | AssignPort(id: SlotId, addr: U32, p: U16)
    | Input(local: Endpoint, d: Datagram, id: SlotId)
    | Receive(id: SlotId, size: nat)
    | Close(id: SlotId, busy: bool)
    | Reap(id: SlotId)

  /** `busy` says that a thread waits on the socket, which then stays until that thread reaps it. */
  ghost predicate Allowed(le: bool, t: Table, call: Call) {
    match call
    case OpenCall(id) => t[id].state == Free && forall i :: 0 <= i < id ==> t[i].state != Free
    case Bind(id, local) => t[id].state == Open && Selects(t, local, None)
    case AssignPort(id, addr, p) =>
      && t[id].state == Open && t[id].local.port == 0
      && (t[id].local.addr == 0 || t[id].local.addr == addr) && FindsPort(le, t, addr, p)
    case Input(local, _, id) => Selects(t, local, Some(id))
    case Receive(id, _) => t[id].state == Open && t[id].queue != []
    case Close(id, _) => t[id].state == Open
    case Reap(id) => t[id].state == Closing
  }

  function Next(le: bool, t: Table, call: Call): Table
    requires Allowed(le, t, call)
  {
    match call
    case OpenCall(id) => t[id := t[id].(state := Open)]
    case Bind(id, local) => t[id := t[id].(local := local)]
    case AssignPort(id, _, p) => t[id := t[id].(local := t[id].local.(port := Headers.Hton16(le, p)))]
    case Input(_, d, id) => t[id := t[id].(queue := t[id].queue + [d])]
    case Receive(id, _) => t[id := t[id].(queue := t[id].queue[1..])]
    case Close(id, busy) => t[id := if busy then t[id].(state := Closing) else ZERO]
    case Reap(id) => t[id := ZERO]
  }

  predicate Bound(s: Slot) {
    s.state == Open && s.local.port != 0
  }

  /** Sockets with a port have distinct endpoints, and a free slot is clean. */
  ghost predicate Inv(t: Table) {
    && (forall i, j :: 0 <= i < j < |t| && Bound(t[i]) && Bound(t[j]) ==> t[i].local != t[j].local)
    && (forall i :: 0 <= i < |t| && t[i].state == Free ==> t[i] == ZERO)
  }

  lemma StepKeepsInv(le: bool, t: Table, call: Call)
    requires Inv(t) && Allowed(le, t, call)
    ensures Inv(Next(le, t, call))
  {
    match call
    case AssignPort(id, addr, p) =>
      Headers.ConvertedStoreIsNetworkOrder(le, p, 0);
      forall i | 0 <= i < |t|
        ensures !At(t[i], Endpoint(addr, Headers.Hton16(le, p)))
      {
      }
    case Bind(id, local) =>
      forall i | 0 <= i < |t|
        ensures !At(t[i], local)
      {
      }
    case _ =>
  }

  // ---- histories

  function Cut(d: Datagram, size: nat): Datagram {
    d.(data := d.data[..Min(size, |d.data|)])
  }

  /** A receipt is from the sender, and its data is as much of the front as fits. */
  lemma CutIsFront(d: Datagram, size: nat)
    ensures Cut(d, size).foreign == d.foreign && Cut(d, size).data <= d.data
    ensures |Cut(d, size).data| == Min(size, |d.data|) && (|d.data| <= size ==> Cut(d, size) == d)
  {
    assert |d.data| <= size ==> d.data[..|d.data|] == d.data;
  }

  /** What a call of recvfrom with room for `size` bytes returned. */
  datatype Receipt = Receipt(size: nat, d: Datagram)

  /** What arrived for the socket in a slot since it was opened, and what its calls returned. */
  datatype Log = Log(arrivals: seq<Datagram>, receipts: seq<Receipt>)

  type Logs = s: seq<Log> | |s| == PCB_COUNT witness seq(PCB_COUNT, _ => Log([], []))

  datatype World = World(t: Table, logs: Logs)

  function StepLogs(w: World, call: Call): Logs {
    match call
    case Input(_, d, id) => w.logs[id := w.logs[id].(arrivals := w.logs[id].arrivals + [d])]
    case Receive(id, size) =>
      if w.t[id].queue == [] then w.logs
      else w.logs[id := w.logs[id].(receipts := w.logs[id].receipts + [Receipt(size, Cut(w.t[id].queue[0], size))])]
    case Close(id, busy) => if busy then w.logs else w.logs[id := Log([], [])]
    case Reap(id) => w.logs[id := Log([], [])]
    case _ => w.logs
  }

  function Start(): World {
    World(seq(PCB_COUNT, _ => ZERO), seq(PCB_COUNT, _ => Log([], [])))
  }

  ghost predicate StepAt(le: bool, ws: seq<World>, calls: seq<Call>, i: nat)
    requires |ws| == |calls| + 1 && i < |calls|
  {
    Allowed(le, ws[i].t, calls[i]) && ws[i + 1] == World(Next(le, ws[i].t, calls[i]), StepLogs(ws[i], calls[i]))
  }

  ghost predicate IsRun(le: bool, ws: seq<World>, calls: seq<Call>) {
    && |ws| == |calls| + 1
    && ws[0] == Start()
    && forall i :: 0 <= i < |calls| ==> StepAt(le, ws, calls, i)
  }

  lemma {:induction false} EndpointsStayUnique(le: bool, ws: seq<World>, calls: seq<Call>, k: nat)
    requires IsRun(le, ws, calls) && k < |ws|
    ensures Inv(ws[k].t)
    decreases k
  {
    if k > 0 {
      EndpointsStayUnique(le, ws, calls, k - 1);
      assert StepAt(le, ws, calls, k - 1);
      StepKeepsInv(le, ws[k - 1].t, calls[k - 1]);
    }
  }

  /** The only socket besides `s` that may also be at the endpoint: the wildcard one, or the one bound to it. */
  function Rival(s: Slot, local: Endpoint): Endpoint {
    if s.local.addr == 0 then local else Endpoint(0, local.port)
  }

  /**
  Over every run: a datagram for an endpoint reaches a given socket there exactly when the
  one other socket that may be at that endpoint is not in an earlier slot.
   */
  lemma DatagramReachesIff(le: bool, ws: seq<World>, calls: seq<Call>, k: nat, i: SlotId, local: Endpoint)
    requires IsRun(le, ws, calls) && k < |ws| && At(ws[k].t[i], local) && local.port != 0
    ensures Selects(ws[k].t, local, Some(i)) <==>
            forall j :: 0 <= j < i && ws[k].t[j].state == Open ==> ws[k].t[j].local != Rival(ws[k].t[i], local)
  {
    EndpointsStayUnique(le, ws, calls, k);
    var t := ws[k].t;
    forall j | 0 <= j < i
      ensures At(t[j], local) <==> t[j].state == Open && t[j].local == Rival(t[i], local)
    {
      assert Bound(t[i]);
      assert At(t[j], local) ==> Bound(t[j]) && t[j].local != t[i].local;
    }
  }

  // ---- the order of datagrams

  /** The k-th receipt is the k-th arrival, cut to its room, and the rest wait in order. */
  ghost predicate LogOk(log: Log, queue: seq<Datagram>) {
    && |log.receipts| <= |log.arrivals|
    && (forall k :: 0 <= k < |log.receipts| ==> log.receipts[k].d == Cut(log.arrivals[k], log.receipts[k].size))
    && queue == log.arrivals[|log.receipts|..]
  }

  ghost predicate LogsOk(w: World) {
    forall i :: 0 <= i < PCB_COUNT ==> LogOk(w.logs[i], w.t[i].queue)
  }

  lemma ArrivalLogged(log: Log, queue: seq<Datagram>, d: Datagram)
    requires LogOk(log, queue)
    ensures LogOk(log.(arrivals := log.arrivals + [d]), queue + [d])
  {
  }

  lemma ReceiptLogged(log: Log, queue: seq<Datagram>, size: nat)
    requires LogOk(log, queue) && queue != []
    ensures LogOk(log.(receipts := log.receipts + [Receipt(size, Cut(queue[0], size))]), queue[1..])
  {
  }

  lemma StepKeepsLogs(le: bool, w: World, call: Call)
    requires Inv(w.t) && LogsOk(w) && Allowed(le, w.t, call)
    ensures LogsOk(World(Next(le, w.t, call), StepLogs(w, call)))
  {
    var w' := World(Next(le, w.t, call), StepLogs(w, call));
    forall i | 0 <= i < PCB_COUNT
      ensures LogOk(w'.logs[i], w'.t[i].queue)
    {
      assert LogOk(w.logs[i], w.t[i].queue);
      match call
      case Input(_, d, id) => ArrivalLogged(w.logs[i], w.t[i].queue, d);
      case Receive(id, size) =>
        if id == i {
          ReceiptLogged(w.logs[i], w.t[i].queue, size);
        }
      case _ =>
    }
  }

  lemma {:induction false} LogsStayOk(le: bool, ws: seq<World>, calls: seq<Call>, k: nat)
    requires IsRun(le, ws, calls) && k < |ws|
    ensures LogsOk(ws[k])
    decreases k
  {
    if k > 0 {
      LogsStayOk(le, ws, calls, k - 1);
      EndpointsStayUnique(le, ws, calls, k - 1);
      assert StepAt(le, ws, calls, k - 1);
      StepKeepsLogs(le, ws[k - 1], calls[k - 1]);
    }
  }

  /**
  Over every run of all the sockets: the k-th call of recvfrom that returned on a socket
  returned the k-th datagram that arrived for it, cut to its room; the rest wait in order.
   */
  lemma DatagramsInOrder(le: bool, ws: seq<World>, calls: seq<Call>, k: nat, i: SlotId)
    requires IsRun(le, ws, calls) && k < |ws|
    ensures var log := ws[k].logs[i];
            && |log.receipts| <= |log.arrivals|
            && (forall n :: 0 <= n < |log.receipts| ==>
                  && log.receipts[n].d.foreign == log.arrivals[n].foreign
                  && var data := log.arrivals[n].data;
                  && log.receipts[n].d.data == data[..Min(log.receipts[n].size, |data|)])
            && ws[k].t[i].queue == log.arrivals[|log.receipts|..]
  {
    LogsStayOk(le, ws, calls, k);
    assert LogOk(ws[k].logs[i], ws[k].t[i].queue);
  }

  /** The port assigned to a socket is free, and the ports below it from 49152 on are all in use at its address. */
  lemma AssignedPortIsLeast(le: bool, t: Table, id: SlotId, addr: U32, p: U16)
    requires Allowed(le, t, AssignPort(id, addr, p))
    ensures p >= 49152 && Next(le, t, AssignPort(id, addr, p))[id].local.port == Headers.Hton16(le, p)
    ensures forall i: SlotId :: t[i].state == Open && t[i].local.addr in {0, addr} ==>
              t[i].local.port != Headers.Hton16(le, p)
    ensures forall q: U16 :: 49152 <= q < p ==>
              exists i: SlotId :: && t[i].state == Open && t[i].local.addr in {0, addr}
                                  && t[i].local.port == Headers.Hton16(le, q)
  {
    forall i: SlotId | t[i].state == Open && t[i].local.addr in {0, addr}
      ensures t[i].local.port != Headers.Hton16(le, p)
    {
      assert !At(t[i], Endpoint(addr, Headers.Hton16(le, p)));
    }
    forall q: U16 | 49152 <= q < p
      ensures exists i: SlotId :: && t[i].state == Open && t[i].local.addr in {0, addr}
                                  && t[i].local.port == Headers.Hton16(le, q)
    {
      assert !Selects(t, Endpoint(addr, Headers.Hton16(le, q)), None);
      var i :| 0 <= i < |t| && At(t[i], Endpoint(addr, Headers.Hton16(le, q)));
    }
  }

  /** A socket that is opened and then bound where nobody is, is the one that datagrams for that endpoint reach. */
  lemma BoundSocketIsReached(le: bool, t: Table, id: SlotId, local: Endpoint)
    requires Inv(t) && Allowed(le, t, OpenCall(id)) && Selects(t, local, None) && local.port != 0
    ensures var t1 := Next(le, t, OpenCall(id));
            && t1[id] == Slot(Open, Endpoint(0, 0), []) && Allowed(le, t1, Bind(id, local))
            && var t2 := Next(le, t1, Bind(id, local));
            && Selects(t2, local, Some(id)) && t2[id] == Slot(Open, local, [])
            && forall j: SlotId :: j != id ==> t2[j] == t[j]
  {
    var t1 := Next(le, t, OpenCall(id));
    var t2 := t1[id := t1[id].(local := local)];
    forall i: SlotId
      ensures !At(t1[i], local) && (i != id ==> !At(t2[i], local))
    {
      assert !At(t[i], local);
    }
  }

  /** A socket that was closed takes no datagram any more, whether or not a thread still waits on it. */
  lemma ClosedTakesNothing(le: bool, t: Table, id: SlotId, busy: bool, local: Endpoint)
    requires Allowed(le, t, Close(id, busy))
    ensures !Selects(Next(le, t, Close(id, busy)), local, Some(id))
    ensures forall j: SlotId :: j != id ==> Next(le, t, Close(id, busy))[j] == t[j]
  {
  }

  /** A datagram finds some open socket exactly if one is bound to its port, at its address or at any. */
  lemma DatagramIsTakenIff(t: Table, local: Endpoint, r: Option<SlotId>)
    requires Selects(t, local, r)
    ensures r.Some? <==> exists i: SlotId :: && t[i].state == Open && t[i].local.port == local.port
                                             && t[i].local.addr in {0, local.addr}
    ensures r.Some? ==>
              forall i: SlotId :: t[i].state == Open && t[i].local.port == local.port ==>
                t[i].local.addr in {0, local.addr} ==> r.value <= i
  {
    match r
    case None =>
      forall i: SlotId
        ensures !At(t[i], local)
      {
      }
    case Some(k) => assert At(t[k], local);
  }

  // ---- the code

  /** The static array `pcbs`. */
  class UdpTable {
    const slots: array<Slot>

    ghost predicate Valid() {
      slots.Length == PCB_COUNT
    }

    ghost function View(): Table
      requires Valid()
      reads slots
    {
      slots[..]
    }

    constructor ()
      ensures Valid() && fresh(slots) && View() == seq(PCB_COUNT, _ => ZERO)
    {
      slots := new Slot[PCB_COUNT](_ => ZERO);
    }

    /** udp_pcb_select. */
    method Select(local: Endpoint) returns (r: Option<SlotId>)
      requires Valid()
      ensures Selects(View(), local, r)
    {
      for i := 0 to slots.Length
        invariant forall j :: 0 <= j < i ==> !At(slots[j], local)
      {
        if slots[i].state == Open {
          if (slots[i].local.addr == 0 || slots[i].local.addr == local.addr) && slots[i].local.port == local.port {
            return Some(i);
          }
        }
      }
      r := None;
    }

    /** udp_open: no socket when none is free. */
    method OpenSocket() returns (id: Option<SlotId>)
      requires Valid()
      modifies slots
      ensures id == None ==> View() == old(View()) && forall i :: 0 <= i < PCB_COUNT ==> View()[i].state != Free
      ensures id.Some? ==> forall le :: Allowed(le, old(View()), OpenCall(id.value)) &&
                                        View() == Next(le, old(View()), OpenCall(id.value))
    {
      for i := 0 to slots.Length
        invariant slots[..] == old(slots[..])
        invariant forall j :: 0 <= j < i ==> slots[j].state != Free
      {
        if slots[i].state == Free {
          slots[i] := slots[i].(state := Open);
          return Some(i);
        }
      }
      id := None;
    }

    /** udp_pcb_release; the queue is emptied and the slot given back only when no thread waits. */
    method CloseSocket(id: SlotId, busy: bool)
      requires Valid() && slots[id].state == Open
      modifies slots
      ensures forall le :: View() == Next(le, old(View()), Close(id, busy))
    {
      slots[id] := slots[id].(state := Closing);
      if busy {
        return;
      }
      slots[id] := slots[id].(state := Free);
      slots[id] := slots[id].(local := ANY);
      while slots[id].queue != []
        invariant forall j :: 0 <= j < PCB_COUNT && j != id ==> slots[j] == old(slots[j])
        invariant slots[id] == Slot(Free, ANY, slots[id].queue)
        decreases |slots[id].queue|
      {
        slots[id] := slots[id].(queue := slots[id].queue[1..]);
      }
    }

    /** udp_bind on an open socket. */
    method BindSocket(id: SlotId, local: Endpoint) returns (ok: bool)
      requires Valid() && slots[id].state == Open
      modifies slots
      ensures forall le :: ok <==> Allowed(le, old(View()), Bind(id, local))
      ensures View() == if ok then old(View())[id := old(slots[id]).(local := local)] else old(View())
    {
      var exist := Select(local);
      if exist != None {
        return false;
      }
      slots[id] := slots[id].(local := local);
      return true;
    }

    /** udp_sendto up to udp_output; `unicast` is the address of the interface towards the peer. */
    method ChooseLocal(le: bool, id: SlotId, unicast: U32) returns (local: Endpoint)
      requires Valid() && slots[id].state == Open
      modifies slots
      ensures local.addr == if old(slots[id].local.addr) == 0 then unicast else old(slots[id].local.addr)
      ensures local.port == slots[id].local.port != 0
      ensures old(slots[id].local.port) != 0 ==> View() == old(View())
      ensures old(slots[id].local.port) == 0 ==>
        exists p: U16 :: p < PORT_MIN + PCB_COUNT && Allowed(le, old(View()), AssignPort(id, local.addr, p)) &&
                         View() == Next(le, old(View()), AssignPort(id, local.addr, p))
    {
      var addr := slots[id].local.addr;
      if addr == 0 {
        addr := unicast;
      }
      if slots[id].local.port == 0 {
        ghost var spare := PortAvailable(le, View(), id, addr);
        var p: U16 := PORT_MIN;
        while p <= PORT_MAX
          invariant PORT_MIN <= p <= spare && View() == old(View())
          invariant forall q: U16 :: PORT_MIN <= q < p ==> !Selects(View(), Endpoint(addr, Headers.Hton16(le, q)), None)
          decreases PORT_MAX - p
        {
          var found := Select(Endpoint(addr, Headers.Hton16(le, p)));
          if found == None {
            slots[id] := slots[id].(local := slots[id].local.(port := Headers.Hton16(le, p)));
            Headers.ConvertedStoreIsNetworkOrder(le, p, 0);
            assert Allowed(le, old(View()), AssignPort(id, addr, p));
            assert View() == Next(le, old(View()), AssignPort(id, addr, p));
            break;
          }
          p := p + 1;
        }
      }
      local := Endpoint(addr, slots[id].local.port);
    }

    /** udp_input after its checks: false when no socket wants the datagram. */
    method Deliver(local: Endpoint, d: Datagram) returns (id: Option<SlotId>)
      requires Valid()
      modifies slots
      ensures Selects(old(View()), local, id)
      ensures id == None ==> View() == old(View())
      ensures id.Some? ==> forall le :: View() == Next(le, old(View()), Input(local, d, id.value))
    {
      id := Select(local);
      if id.Some? {
        var k := id.value;
        slots[k] := slots[k].(queue := slots[k].queue + [d]);
      }
    }

    /** One turn of udp_recvfrom with a buffer of `size` bytes: none when the caller has to wait. */
    method TakeDatagram(id: SlotId, size: nat) returns (d: Option<Datagram>)
      requires Valid() && slots[id].state == Open
      modifies slots
      ensures var queue := old(slots[id].queue);
              if queue == [] then d == None && View() == old(View())
              else d == Some(Cut(queue[0], size)) && forall le :: View() == Next(le, old(View()), Receive(id, size))
    {
      if slots[id].queue == [] {
        return None;
      }
      var entry := slots[id].queue[0];
      slots[id] := slots[id].(queue := slots[id].queue[1..]);
      return Some(Cut(entry, size));
    }
  }
}
