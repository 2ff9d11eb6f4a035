/**
Runs of the PCB table: connections keep distinct 4-tuples, so a segment reaches the one
connection it belongs to, and accept hands out children once each in the order in which
their handshakes ended.
 */
module TcpSockets {
  import opened Options
  import opened Words
  import opened Counting
  import opened Ports
  import opened TcpTable
  import opened TcpSpec

  /** A PCB as tcp_open leaves it, bound or not. */
  predicate IsFresh(s: Slot) {
    s.state == Closed && s.foreign == ANY
  }

  /**
  What the table relies on its users for: bind, listen and connect are applied to fresh
  PCBs, connect leaves the port to the search, and real endpoints have addresses.
   */
  predicate Disciplined(t: Table, call: Call) {
    match call
    case Bind(id, _) => IsFresh(t[id])
    case ListenOn(id) => IsFresh(t[id])
    case ConnectTo(id, local, foreign) => IsFresh(t[id]) && t[id].local.port == 0 && local.addr != 0 && foreign != ANY
    case Incoming(local, foreign, _, _) => local.addr != 0 && foreign != ANY
    case _ => true
  }

  predicate Connected(s: Slot) {
    s.foreign != ANY
  }

  ghost predicate UniqueTuples(t: Table) {
    forall i, j :: 0 <= i < j < |t| && Connected(t[i]) && t[i].foreign == t[j].foreign ==> t[i].local != t[j].local
  }

  predicate SlotOk(s: Slot) {
    && (s.state == Free ==> s.local == ANY && s.foreign == ANY && s.parent == None)
    && (s.state == Listen ==> s.foreign == ANY)
    && (s.foreign == ANY || s.state == SynSent ==> s.parent == None)
    && (Connected(s) ==> s.local.addr != 0)
  }

  ghost predicate Inv(t: Table) {
    UniqueTuples(t) && forall i :: 0 <= i < |t| ==> SlotOk(t[i])
  }

  /** Putting a slot in keeps the tuples distinct when nobody else has its tuple. */
  lemma UpdateKeepsInv(t: Table, i: SlotId, s: Slot)
    requires Inv(t) && SlotOk(s)
    requires Connected(s) ==> forall j :: 0 <= j < |t| && j != i ==> t[j].foreign != s.foreign || t[j].local != s.local
    ensures Inv(t[i := s])
  {
  }

  lemma SameTupleKeepsInv(t: Table, i: SlotId, s: Slot)
    requires Inv(t) && SlotOk(s) && s.local == t[i].local && s.foreign == t[i].foreign
    ensures Inv(t[i := s])
  {
    UpdateKeepsInv(t, i, s);
  }

  lemma StepKeepsInv(t: Table, call: Call)
    requires Inv(t) && Allowed(t, call) && Disciplined(t, call)
    ensures Inv(Next(t, call))
  {
    match call
    case Open(n) => SameTupleKeepsInv(t, n, t[n].(state := Closed));
    case Bind(id, local) => UpdateKeepsInv(t, id, t[id].(local := local));
    case ListenOn(id) => SameTupleKeepsInv(t, id, t[id].(state := Listen));
    case ConnectTo(id, local, foreign) =>
      UpdateKeepsInv(t, id, t[id].(local := local, foreign := foreign, state := SynSent));
    case Incoming(local, foreign, listener, n) =>
      assert !Exact(t[listener], local, foreign);
      UpdateKeepsInv(t, n, t[n].(state := SynReceived, local := local, foreign := foreign, parent := Some(listener)));
    case Establish(id) =>
      var t1: Table := t[id := t[id].(state := Established)];
      SameTupleKeepsInv(t, id, t1[id]);
      if t[id].parent.Some? {
        var p := t[id].parent.value;
        SameTupleKeepsInv(t1, p, t1[p].(backlog := t1[p].backlog + [id]));
      }
    case Accept(id) => SameTupleKeepsInv(t, id, t[id].(backlog := t[id].backlog[1..]));
    case Move(id, s) => SameTupleKeepsInv(t, id, t[id].(state := s));
    case Release(id, busy) => ReleaseOnlyFrees(t, id, busy);
  }

  // ---- runs, with every PCB given a number when it is allocated

  /**
  `born` is the number of the PCB in each slot; `come` and `gone` are, for the PCB in each
  slot, the children whose handshake ended and those that accept has returned.
   */
  datatype World = World(t: Table, born: Numbers, next: nat, come: Logs, gone: Logs)

  type Numbers = s: seq<nat> | |s| == PCB_COUNT witness seq(PCB_COUNT, _ => 0)

  type Logs = s: seq<seq<nat>> | |s| == PCB_COUNT witness seq(PCB_COUNT, _ => [])

  function Start(): World {
    var none := seq(PCB_COUNT, _ => []);
    World(seq(PCB_COUNT, _ => ZERO), seq(PCB_COUNT, _ => 0), 0, none, none)
  }

  ghost function StepWorld(w: World, call: Call): World
    requires Allowed(w.t, call)
  {
    var w' := w.(t := Next(w.t, call));
    match call
    case Open(n) => w'.(born := w.born[n := w.next], next := w.next + 1)
    case Incoming(_, _, _, n) => w'.(born := w.born[n := w.next], next := w.next + 1)
    case Establish(id) =>
      (match w.t[id].parent
       case None => w'
       case Some(p) => w'.(come := w.come[p := w.come[p] + [w.born[id]]]))
    case Accept(id) => w'.(gone := w.gone[id := w.gone[id] + [w.born[w.t[id].backlog[0]]]])
    case Release(_, _) => w'.(come := Kept(w.come, w'.t), gone := Kept(w.gone, w'.t))
    case _ => w'
  }

  /** Logs go with their slots. */
  ghost function Kept(logs: Logs, t: Table): Logs {
    seq(PCB_COUNT, i requires 0 <= i < PCB_COUNT => if t[i] == ZERO then [] else logs[i])
  }

  ghost predicate StepAt(ws: seq<World>, calls: seq<Call>, i: nat)
    requires |ws| == |calls| + 1 && i < |calls|
  {
    && Allowed(ws[i].t, calls[i]) && Disciplined(ws[i].t, calls[i])
    && ws[i + 1] == StepWorld(ws[i], calls[i])
  }

  ghost predicate IsRun(ws: seq<World>, calls: seq<Call>) {
    && |ws| == |calls| + 1
    && ws[0] == Start()
    && forall i :: 0 <= i < |calls| ==> StepAt(ws, calls, i)
  }

  lemma {:induction false} ConnectionsStayUnique(ws: seq<World>, calls: seq<Call>, k: nat)
    requires IsRun(ws, calls) && k < |ws|
    ensures Inv(ws[k].t)
    decreases k
  {
    if k > 0 {
      ConnectionsStayUnique(ws, calls, k - 1);
      assert StepAt(ws, calls, k - 1);
      StepKeepsInv(ws[k - 1].t, calls[k - 1]);
    }
  }

  /** Over every run: a segment with a connection's 4-tuple is given to that connection. */
  lemma SegmentsReachTheirConnection(ws: seq<World>, calls: seq<Call>, k: nat, i: SlotId, r: Option<SlotId>)
    requires IsRun(ws, calls) && k < |ws| && Connected(ws[k].t[i])
    ensures Selects(ws[k].t, ws[k].t[i].local, Some(ws[k].t[i].foreign), r) <==> r == Some(i)
  {
    ConnectionsStayUnique(ws, calls, k);
    var t := ws[k].t;
    var local, foreign := t[i].local, t[i].foreign;
    assert Exact(t[i], local, foreign);
    forall j | 0 <= j < |t| && Exact(t[j], local, foreign)
      ensures j == i
    {
      assert SlotOk(t[j]);
      assert t[j].local == local;
    }
  }

  // ---- accept

  /** Releasing `call.id` frees a PCB that waits in the backlog of one that stays. */
  ghost predicate Strands(t: Table, call: Call)
    requires Allowed(t, call)
  {
    call.Release? && exists l: SlotId, c: SlotId :: StrandedIn(Next(t, call), l, c)
  }

  /** The backlog of slot `l` still names slot `c`, which is free. */
  predicate StrandedIn(t: Table, l: SlotId, c: SlotId) {
    c in t[l].backlog && t[c].state == Free
  }

  function Births(born: Numbers, ids: seq<SlotId>): seq<nat> {
    seq(|ids|, k requires 0 <= k < |ids| => born[ids[k]])
  }

  /** Waiting for the end of a handshake that a listener started. */
  predicate Pending(s: Slot) {
    s.state == SynReceived && s.parent.Some?
  }

  ghost predicate NumbersOk(w: World) {
    && (forall i :: 0 <= i < PCB_COUNT && w.t[i].state != Free ==> w.born[i] < w.next)
    && (forall i, j :: 0 <= i < j < PCB_COUNT && w.t[i].state != Free && w.t[j].state != Free ==>
          w.born[i] != w.born[j])
  }

  /** What one PCB has handed out, followed by its backlog, is what it was given, each child once. */
  ghost predicate HandOff(come: seq<nat>, gone: seq<nat>, waiting: seq<nat>) {
    come == gone + waiting && Distinct(come)
  }

  /** Past the handshake. */
  predicate Settled(s: Slot) {
    Connected(s) && s.state !in {Free, SynReceived, SynSent}
  }

  ghost predicate LogOk(w: World, l: SlotId) {
    && HandOff(w.come[l], w.gone[l], Births(w.born, w.t[l].backlog))
    && (forall k :: 0 <= k < |w.come[l]| ==> w.come[l][k] < w.next)
    && (forall k :: 0 <= k < |w.t[l].backlog| ==> Settled(w.t[w.t[l].backlog[k]]))
    && (forall c :: 0 <= c < PCB_COUNT && Pending(w.t[c]) ==> w.born[c] !in w.come[l])
  }

  /** In every slot: accept hands out in order, each child once, and only connections wait. */
  ghost predicate AcceptOk(w: World) {
    forall l :: 0 <= l < PCB_COUNT ==> HandsOut(w, l)
  }

  ghost predicate HandsOut(w: World, l: SlotId) {
    && HandOff(w.come[l], w.gone[l], Births(w.born, w.t[l].backlog))
    && (forall k :: 0 <= k < |w.t[l].backlog| ==> Settled(w.t[w.t[l].backlog[k]]))
  }

  ghost predicate AcceptInv(w: World) {
    NumbersOk(w) && forall l :: 0 <= l < PCB_COUNT ==> LogOk(w, l)
  }

  /** No slot starts a handshake under a number that may be in a log. */
  ghost predicate NoNewPending(w: World, w': World) {
    forall c :: 0 <= c < PCB_COUNT && Pending(w'.t[c]) ==>
      (Pending(w.t[c]) && w'.born[c] == w.born[c]) || w'.born[c] >= w.next
  }

  lemma QuietLog(w: World, w': World, l: SlotId)
    requires LogOk(w, l) && w'.come[l] == w.come[l] && w'.gone[l] == w.gone[l] && w.next <= w'.next
    requires w'.t[l].backlog == w.t[l].backlog && NoNewPending(w, w')
    requires forall k :: 0 <= k < |w.t[l].backlog| ==>
               var c := w.t[l].backlog[k]; Settled(w'.t[c]) && w'.born[c] == w.born[c]
    ensures LogOk(w', l)
  {
    assert Births(w'.born, w'.t[l].backlog) == Births(w.born, w.t[l].backlog);
  }

  predicate SameCore(s: Slot, s': Slot) {
    s.state == s'.state && s.foreign == s'.foreign && s.parent == s'.parent
  }

  lemma PushedLog(w: World, w': World, l: SlotId, id: SlotId)
    requires LogOk(w, l) && NumbersOk(w) && Pending(w.t[id]) && !Pending(w'.t[id]) && Settled(w'.t[id])
    requires w'.come[l] == w.come[l] + [w.born[id]] && w'.gone[l] == w.gone[l]
    requires w'.t[l].backlog == w.t[l].backlog + [id] && w'.born == w.born && w'.next == w.next
    requires forall c :: 0 <= c < PCB_COUNT && c != id ==> SameCore(w'.t[c], w.t[c])
    ensures LogOk(w', l)
  {
    var backlog := w.t[l].backlog;
    assert Births(w.born, backlog + [id]) == Births(w.born, backlog) + [w.born[id]];
    forall c | 0 <= c < PCB_COUNT && Pending(w'.t[c])
      ensures w.born[c] !in w'.come[l]
    {
      assert Pending(w.t[c]);
    }
  }

  lemma PoppedLog(w: World, w': World, l: SlotId)
    requires LogOk(w, l) && w.t[l].backlog != []
    requires w'.come[l] == w.come[l] && w'.gone[l] == w.gone[l] + [w.born[w.t[l].backlog[0]]]
    requires w'.t[l].backlog == w.t[l].backlog[1..] && w'.born == w.born && w'.next == w.next
    requires forall c :: 0 <= c < PCB_COUNT ==> SameCore(w'.t[c], w.t[c])
    ensures LogOk(w', l)
  {
    var b := w.t[l].backlog;
    assert Births(w.born, b) == [w.born[b[0]]] + Births(w.born, b[1..]);
  }

  predicate Touches(call: Call) {
    call.Establish? || call.Accept? || call.Release?
  }

  lemma RenumberKeeps(w: World, w': World, n: SlotId)
    requires NumbersOk(w) && w'.born == w.born[n := w.next] && w'.next == w.next + 1
    requires forall i :: 0 <= i < PCB_COUNT && i != n ==> w'.t[i] == w.t[i]
    ensures NumbersOk(w')
  {
  }

  lemma QuietNumbers(w: World, call: Call)
    requires NumbersOk(w) && Allowed(w.t, call) && !Touches(call)
    ensures NumbersOk(StepWorld(w, call))
  {
    var w' := StepWorld(w, call);
    match call
    case Open(n) => RenumberKeeps(w, w', n);
    case Incoming(_, _, _, n) => RenumberKeeps(w, w', n);
    case _ =>
  }

  lemma QuietLogs(w: World, call: Call, l: SlotId)
    requires Inv(w.t) && LogOk(w, l) && Allowed(w.t, call) && Disciplined(w.t, call) && !Touches(call)
    ensures LogOk(StepWorld(w, call), l)
  {
    var w' := StepWorld(w, call);
    assert NoNewPending(w, w') by {
      forall c | 0 <= c < PCB_COUNT && Pending(w'.t[c])
        ensures (Pending(w.t[c]) && w'.born[c] == w.born[c]) || w'.born[c] >= w.next
      {
        assert SlotOk(w.t[c]);
      }
    }
    QuietLog(w, w', l);
  }

  lemma QuietStep(w: World, call: Call)
    requires Inv(w.t) && AcceptInv(w) && Allowed(w.t, call) && Disciplined(w.t, call) && !Touches(call)
    ensures AcceptInv(StepWorld(w, call))
  {
    QuietNumbers(w, call);
    forall l | 0 <= l < PCB_COUNT
      ensures LogOk(StepWorld(w, call), l)
    {
      QuietLogs(w, call, l);
    }
  }

  lemma PromotedFacts(t: Table, id: SlotId)
    ensures var r := Promoted(t, id);
            && SameCore(r[id], t[id].(state := Established))
            && (forall c :: 0 <= c < PCB_COUNT && c != id ==> SameCore(r[c], t[c]))
            && (forall l :: 0 <= l < PCB_COUNT ==>
                  r[l].backlog == t[l].backlog + if t[id].parent == Some(l) then [id] else [])
  {
  }

  lemma EstablishLog(w: World, w': World, id: SlotId, l: SlotId)
    requires Inv(w.t) && NumbersOk(w) && LogOk(w, l) && w.t[id].state == SynReceived
    requires w'.t == Promoted(w.t, id) && w'.born == w.born && w'.next == w.next && w'.gone == w.gone
    requires w'.come[l] == w.come[l] + if w.t[id].parent == Some(l) then [w.born[id]] else []
    ensures LogOk(w', l)
  {
    PromotedFacts(w.t, id);
    assert SlotOk(w.t[id]);
    if w.t[id].parent == Some(l) {
      PushedLog(w, w', l, id);
    } else {
      QuietLog(w, w', l);
    }
  }

  lemma EstablishStep(w: World, id: SlotId)
    requires Inv(w.t) && AcceptInv(w) && w.t[id].state == SynReceived
    ensures AcceptInv(StepWorld(w, Establish(id)))
  {
    var w' := StepWorld(w, Establish(id));
    PromotedFacts(w.t, id);
    forall l | 0 <= l < PCB_COUNT
      ensures LogOk(w', l)
    {
      EstablishLog(w, w', id, l);
    }
  }

  lemma AcceptStep(w: World, id: SlotId)
    requires AcceptInv(w) && Allowed(w.t, Accept(id))
    ensures AcceptInv(StepWorld(w, Accept(id)))
  {
    var w' := StepWorld(w, Accept(id));
    assert NoNewPending(w, w');
    forall l | 0 <= l < PCB_COUNT
      ensures LogOk(w', l)
    {
      assert LogOk(w, l);
      if l == id {
        PoppedLog(w, w', l);
      } else {
        QuietLog(w, w', l);
      }
    }
  }

  /** A release empties slots; the others stay as they are. */
  lemma ReleaseFrees(t: Table, call: Call, j: SlotId)
    requires Allowed(t, call) && call.Release?
    ensures Next(t, call)[j] == t[j] || Next(t, call)[j] == ZERO
  {
    ReleaseOnlyFrees(t, call.id, call.busy);
  }

  lemma ReleaseLog(w: World, call: Call, l: SlotId)
    requires AcceptInv(w) && call.Release? && Allowed(w.t, call) && !Strands(w.t, call)
    ensures LogOk(StepWorld(w, call), l)
  {
    var w' := StepWorld(w, call);
    assert LogOk(w, l);
    forall j: SlotId
      ensures w'.t[j] == w.t[j] || w'.t[j] == ZERO
    {
      ReleaseFrees(w.t, call, j);
    }
    if w'.t[l] != ZERO {
      forall k | 0 <= k < |w.t[l].backlog|
        ensures w'.t[w.t[l].backlog[k]] == w.t[w.t[l].backlog[k]]
      {
        assert !StrandedIn(w'.t, l, w.t[l].backlog[k]);
      }
      QuietLog(w, w', l);
    }
  }

  lemma ReleaseNumbers(w: World, call: Call)
    requires NumbersOk(w) && call.Release? && Allowed(w.t, call)
    ensures NumbersOk(StepWorld(w, call))
  {
    forall j: SlotId
      ensures StepWorld(w, call).t[j] == w.t[j] || StepWorld(w, call).t[j] == ZERO
    {
      ReleaseFrees(w.t, call, j);
    }
  }

  lemma ReleaseStep(w: World, call: Call)
    requires AcceptInv(w) && call.Release? && Allowed(w.t, call) && !Strands(w.t, call)
    ensures AcceptInv(StepWorld(w, call))
  {
    ReleaseNumbers(w, call);
    forall l | 0 <= l < PCB_COUNT
      ensures LogOk(StepWorld(w, call), l)
    {
      ReleaseLog(w, call, l);
    }
  }

  lemma StepKeepsAcceptInv(w: World, call: Call)
    requires Inv(w.t) && AcceptInv(w) && Allowed(w.t, call) && Disciplined(w.t, call) && !Strands(w.t, call)
    ensures AcceptInv(StepWorld(w, call))
  {
    match call
    case Establish(id) => EstablishStep(w, id);
    case Accept(id) => AcceptStep(w, id);
    case Release(_, _) => ReleaseStep(w, call);
    case _ => QuietStep(w, call);
  }

  lemma StrandedBreaksAccept(w: World, call: Call)
    requires Allowed(w.t, call) && Strands(w.t, call)
    ensures !AcceptOk(StepWorld(w, call))
  {
    var w' := StepWorld(w, call);
    var l: SlotId, c: SlotId :| StrandedIn(w'.t, l, c);
    var k :| 0 <= k < |w'.t[l].backlog| && w'.t[l].backlog[k] == c;
    assert !HandsOut(w', l);
  }

  lemma AcceptInvMeansOk(w: World)
    requires AcceptInv(w)
    ensures AcceptOk(w)
  {
    forall l | 0 <= l < PCB_COUNT
      ensures HandsOut(w, l)
    {
      assert LogOk(w, l);
    }
  }

  lemma StartIsOk()
    ensures AcceptInv(Start())
  {
  }

  ghost predicate AcceptOkAt(ws: seq<World>, j: nat)
    requires j < |ws|
  {
    AcceptOk(ws[j])
  }

  ghost predicate AcceptOkUpTo(ws: seq<World>, k: nat)
    requires k < |ws|
  {
    forall j :: 0 <= j <= k ==> AcceptOkAt(ws, j)
  }

  ghost predicate StrandsAt(ws: seq<World>, calls: seq<Call>, i: nat)
    requires |ws| == |calls| + 1 && i < |calls|
  {
    Allowed(ws[i].t, calls[i]) && Strands(ws[i].t, calls[i])
  }

  ghost predicate NeverStrands(ws: seq<World>, calls: seq<Call>, k: nat)
    requires |ws| == |calls| + 1 && k <= |calls|
  {
    forall i :: 0 <= i < k ==> !StrandsAt(ws, calls, i)
  }

  lemma RunStepAccepts(ws: seq<World>, calls: seq<Call>, k: nat)
    requires IsRun(ws, calls) && 0 < k < |ws| && AcceptInv(ws[k - 1])
    ensures if StrandsAt(ws, calls, k - 1) then !AcceptOkAt(ws, k) else AcceptInv(ws[k])
  {
    ConnectionsStayUnique(ws, calls, k - 1);
    assert StepAt(ws, calls, k - 1);
    if StrandsAt(ws, calls, k - 1) {
      StrandedBreaksAccept(ws[k - 1], calls[k - 1]);
    } else {
      StepKeepsAcceptInv(ws[k - 1], calls[k - 1]);
    }
  }

  lemma {:induction false} LogsStayOk(ws: seq<World>, calls: seq<Call>, k: nat)
    requires IsRun(ws, calls) && k < |ws| && NeverStrands(ws, calls, k)
    ensures AcceptInv(ws[k])
    decreases k
  {
    if k == 0 {
      StartIsOk();
    } else {
      LogsStayOk(ws, calls, k - 1);
      assert !StrandsAt(ws, calls, k - 1);
      RunStepAccepts(ws, calls, k);
    }
  }

  lemma LastStepAccepts(ws: seq<World>, calls: seq<Call>, k: nat)
    requires IsRun(ws, calls) && 0 < k < |ws| && NeverStrands(ws, calls, k - 1)
    ensures AcceptOkAt(ws, k) <==> !StrandsAt(ws, calls, k - 1)
  {
    LogsStayOk(ws, calls, k - 1);
    RunStepAccepts(ws, calls, k);
    if !StrandsAt(ws, calls, k - 1) {
      AcceptInvMeansOk(ws[k]);
    }
  }

  /**
  In every slot and every state so far: what accept has returned from it, followed by its
  backlog, is the list of children in the order in which their handshakes ended, no child
  occurs twice, and those that wait are connections. This holds if and only if so far no
  release has freed a PCB that waits in the backlog of one that stays.
   */
  lemma {:induction false} AcceptedOnceInOrder(ws: seq<World>, calls: seq<Call>, k: nat)
    requires IsRun(ws, calls) && k < |ws|
    ensures AcceptOkUpTo(ws, k) <==> NeverStrands(ws, calls, k)
    decreases k
  {
    if k == 0 {
      StartIsOk();
      AcceptInvMeansOk(ws[0]);
      assert AcceptOkAt(ws, 0);
    } else {
      AcceptedOnceInOrder(ws, calls, k - 1);
      assert AcceptOkUpTo(ws, k) <==> AcceptOkUpTo(ws, k - 1) && AcceptOkAt(ws, k);
      assert NeverStrands(ws, calls, k) <==> NeverStrands(ws, calls, k - 1) && !StrandsAt(ws, calls, k - 1);
      if NeverStrands(ws, calls, k - 1) {
        LastStepAccepts(ws, calls, k);
      }
    }
  }

  // ---- connecting from a bound port

  /** Without the search, connect keeps the tuples distinct exactly when no other PCB has the tuple. */
  lemma BoundConnectKeepsUniqueIff(t: Table, id: SlotId, local: Endpoint, foreign: Endpoint)
    requires Inv(t) && Allowed(t, ConnectTo(id, local, foreign)) && foreign != ANY
    ensures UniqueTuples(Next(t, ConnectTo(id, local, foreign))) <==>
            forall i :: 0 <= i < |t| && i != id ==> !(t[i].local == local && t[i].foreign == foreign)
  {
    var t' := Next(t, ConnectTo(id, local, foreign));
    assert t' == t[id := t[id].(local := local, foreign := foreign, state := SynSent)];
    forall i: SlotId | i != id && t[i].local == local && t[i].foreign == foreign
      ensures !UniqueTuples(t')
    {
      var a, b := if i < id then i else id, if i < id then id else i;
      assert Connected(t'[a]) && t'[a].foreign == t'[b].foreign && t'[a].local == t'[b].local;
    }
  }

  ghost predicate TableStep(t: Table, call: Call, t': Table) {
    Allowed(t, call) && t' == Next(t, call)
  }

  ghost predicate IsTableRun(ts: seq<Table>, calls: seq<Call>) {
    && |ts| == |calls| + 1
    && ts[0] == Start().t
    && forall i {:trigger calls[i]} :: 0 <= i < |calls| ==> TableStep(ts[i], calls[i], ts[i + 1])
  }

  function TwoSlots(a: Slot, b: Slot): Table {
    seq(PCB_COUNT, i requires 0 <= i < PCB_COUNT => if i == 0 then a else if i == 1 then b else ZERO)
  }

  lemma TwoSlotsUpdate(a: Slot, b: Slot, c: Slot)
    ensures TwoSlots(a, b)[0 := c] == TwoSlots(c, b) && TwoSlots(a, b)[1 := c] == TwoSlots(a, c)
  {
  }

  const HERE := Endpoint(10, 80)
  const THERE := Endpoint(20, 99)
  const WILD := Endpoint(0, 80)
  const OPENED := ZERO.(state := Closed)
  const BOUND := OPENED.(local := WILD)
  const LISTENER := BOUND.(state := Listen)
  const CHILD := Slot(SynReceived, HERE, THERE, Some(0), [])
  const SECOND := BOUND.(local := HERE, foreign := THERE, state := SynSent)

  lemma OpensAndBinds(b: Slot)
    requires b == ZERO || b == CHILD
    ensures TableStep(TwoSlots(ZERO, b), Open(0), TwoSlots(OPENED, b))
    ensures TableStep(TwoSlots(OPENED, b), Bind(0, WILD), TwoSlots(BOUND, b))
  {
    TwoSlotsUpdate(ZERO, b, OPENED);
    TwoSlotsUpdate(OPENED, b, BOUND);
  }

  lemma ListensAndForks()
    ensures TableStep(TwoSlots(BOUND, ZERO), ListenOn(0), TwoSlots(LISTENER, ZERO))
    ensures TableStep(TwoSlots(LISTENER, ZERO), Incoming(HERE, THERE, 0, 1), TwoSlots(LISTENER, CHILD))
  {
    TwoSlotsUpdate(BOUND, ZERO, LISTENER);
    TwoSlotsUpdate(LISTENER, ZERO, CHILD);
  }

  lemma GoesAndReturns()
    ensures TableStep(TwoSlots(LISTENER, CHILD), Release(0, {}), TwoSlots(ZERO, CHILD))
    ensures TableStep(TwoSlots(BOUND, CHILD), ConnectTo(0, HERE, THERE), TwoSlots(SECOND, CHILD))
  {
    TwoSlotsUpdate(LISTENER, CHILD, ZERO);
    TwoSlotsUpdate(BOUND, CHILD, SECOND);
  }

  /**
  A port bound again after its listener has gone: the child of the first listener still
  has the address that the second socket connects from, and both end with one 4-tuple.
   */
  lemma BoundConnectCollides() returns (ts: seq<Table>, calls: seq<Call>)
    ensures IsTableRun(ts, calls) && |calls| == 8
    ensures forall i {:trigger calls[i]} :: 0 <= i < 7 ==> Disciplined(ts[i], calls[i])
    ensures !UniqueTuples(ts[8])
  {
    ts := [TwoSlots(ZERO, ZERO), TwoSlots(OPENED, ZERO), TwoSlots(BOUND, ZERO), TwoSlots(LISTENER, ZERO),
           TwoSlots(LISTENER, CHILD), TwoSlots(ZERO, CHILD), TwoSlots(OPENED, CHILD), TwoSlots(BOUND, CHILD),
           TwoSlots(SECOND, CHILD)];
    calls := [Open(0), Bind(0, WILD), ListenOn(0), Incoming(HERE, THERE, 0, 1),
              Release(0, {}), Open(0), Bind(0, WILD), ConnectTo(0, HERE, THERE)];
    OpensAndBinds(ZERO);
    ListensAndForks();
    GoesAndReturns();
    OpensAndBinds(CHILD);
    assert Start().t == ts[0];
    assert Connected(ts[8][0]) && ts[8][0].foreign == ts[8][1].foreign && ts[8][0].local == ts[8][1].local;
  }

  // ---- releasing a child that waits to be accepted

  const LISTENER_WITH_ONE := LISTENER.(backlog := [1])

  lemma EstablishesAndGoes()
    ensures TableStep(TwoSlots(LISTENER, CHILD), Establish(1),
                      TwoSlots(LISTENER_WITH_ONE, CHILD.(state := Established)))
    ensures TableStep(TwoSlots(LISTENER_WITH_ONE, CHILD.(state := Established)), Release(1, {}),
                      TwoSlots(LISTENER_WITH_ONE, ZERO))
    ensures TableStep(TwoSlots(LISTENER_WITH_ONE, ZERO), Open(1), TwoSlots(LISTENER_WITH_ONE, OPENED))
  {
    var child := CHILD.(state := Established);
    TwoSlotsUpdate(LISTENER, CHILD, child);
    TwoSlotsUpdate(LISTENER, child, LISTENER_WITH_ONE);
    assert LISTENER.backlog + [1] == [1];
    TwoSlotsUpdate(LISTENER_WITH_ONE, child, ZERO);
    TwoSlotsUpdate(LISTENER_WITH_ONE, ZERO, OPENED);
  }

  /**
  A child that is released before it is accepted stays in the backlog of its listener;
  once its slot is taken again, accept returns a PCB that is no connection at all.
   */
  lemma ReleasedChildIsAccepted() returns (ts: seq<Table>, calls: seq<Call>)
    ensures IsTableRun(ts, calls) && |calls| == 7
    ensures forall i {:trigger calls[i]} :: 0 <= i < 7 ==> Disciplined(ts[i], calls[i])
    ensures Strands(ts[5], calls[5])
    ensures Allowed(ts[7], Accept(0)) && ts[7][0].backlog[0] == 1 && IsFresh(ts[7][1])
  {
    ts := [TwoSlots(ZERO, ZERO), TwoSlots(OPENED, ZERO), TwoSlots(BOUND, ZERO), TwoSlots(LISTENER, ZERO),
           TwoSlots(LISTENER, CHILD), TwoSlots(LISTENER_WITH_ONE, CHILD.(state := Established)),
           TwoSlots(LISTENER_WITH_ONE, ZERO), TwoSlots(LISTENER_WITH_ONE, OPENED)];
    calls := [Open(0), Bind(0, WILD), ListenOn(0), Incoming(HERE, THERE, 0, 1), Establish(1), Release(1, {}), Open(1)];
    OpensAndBinds(ZERO);
    ListensAndForks();
    EstablishesAndGoes();
    assert Start().t == ts[0];
    assert StrandedIn(ts[6], 0, 1);
  }
}
