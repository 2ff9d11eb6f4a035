/**
All steps together. A slice that IP refuses while a thread waits on the block stays in the
retransmit queue without having been counted; with such a slice counted as sent and lost,
every step of either node keeps the invariant.
 */
module TcpPairWide {
  import opened Words
  import opened Clock
  import opened TcpSpec
  import opened TcpQueue
  import opened TcpLocal
  import opened TcpPair
  import opened TcpPairSteps
  import opened TcpPairArrive

  lemma CommandKeepsInv(x: Node, y: Node, ev: Event)
    requires PairInv(x, y) && CanStep(x, y, ev) && Budget(StepNode(x, ev))
    requires !ev.Arrive? && !ev.TimerTick? && !ev.SendFails?
    ensures PairInv(StepNode(x, ev), y)
  {
    match ev
    case Connect(_, _, _) => ConnectKeepsInv(x, y, ev);
    case ListenCmd => ListenKeepsInv(x, y, ev);
    case Send(_, _) => SendKeepsInv(x, y, ev);
    case Receive(_) => ReceiveKeepsInv(x, y, ev);
    case Close(_, _) => CloseKeepsInv(x, y, ev);
    case GiveUp(_) => GiveUpKeepsInv(x, y, ev);
    case _ =>
  }

  /** One step of `x` while its peer `y` stands still. */
  lemma StepKeepsInv(x: Node, y: Node, ev: Event)
    requires PairInv(x, y) && CanStep(x, y, ev) && Budget(y) && Budget(StepNode(x, ev)) && !HeldRefusal(ev)
    ensures PairInv(StepNode(x, ev), y)
  {
    if ev.Arrive? {
      ArriveKeepsInv(x, y, ev);
    } else if ev.TimerTick? {
      TickKeepsInv(x, y, ev);
    } else if ev.SendFails? {
      RefusalKeepsInv(x, y, ev);
    } else {
      CommandKeepsInv(x, y, ev);
    }
  }

  lemma ListenKeepsInv(x: Node, y: Node, ev: Event)
    requires PairInv(x, y) && CanStep(x, y, ev) && ev.ListenCmd?
    ensures PairInv(StepNode(x, ev), y)
  {
    ListenShape(x, ev);
    ListenKeepsNode(x);
    MoveKeepsLinks(x, y, Listen, x.t.twTimer);
  }

  lemma ListenShape(x: Node, ev: Event)
    requires Enabled(x.t, ev) && ev.ListenCmd?
    ensures StepNode(x, ev) == x.(t := x.t.(state := Listen))
  {
  }

  lemma ListenKeepsNode(x: Node)
    requires NodeOk(x) && !x.tx.began
    ensures NodeOk(x.(t := x.t.(state := Listen)))
  {
  }

  lemma GiveUpKeepsInv(x: Node, y: Node, ev: Event)
    requires PairInv(x, y) && CanStep(x, y, ev) && ev.GiveUp?
    ensures PairInv(StepNode(x, ev), y)
  {
    GiveUpShape(x, ev);
    GoneKeepsInv(x, y, if ev.waiters then Closed else Free);
  }

  lemma GiveUpShape(x: Node, ev: Event)
    requires Enabled(x.t, ev) && ev.GiveUp?
    ensures StepNode(x, ev) == x.(t := x.t.(state := if ev.waiters then Closed else Free))
  {
  }

  /** A refused slice closes the block; with nobody waiting it is released at once. */
  lemma RefusalKeepsInv(x: Node, y: Node, ev: Event)
    requires PairInv(x, y) && CanStep(x, y, ev) && ev.SendFails? && !ev.waiters
    ensures PairInv(StepNode(x, ev), y)
  {
    RefusalShape(x, ev);
    GoneKeepsInv(x, y, Free);
  }

  lemma RefusalShape(x: Node, ev: Event)
    requires Enabled(x.t, ev) && ev.SendFails? && !ev.waiters
    ensures StepNode(x, ev) == x.(t := x.t.(state := Free))
  {
  }

  // ---- held slices

  lemma {:induction false} EmitIgnoresSndNxt(t: Tcb, n: U32, i: nat, clock: seq<Time>)
    requires i <= |t.queue| == |clock|
    ensures EmitFrom(t.(sndNxt := n), i, clock) ==
            Result(EmitFrom(t, i, clock).t.(sndNxt := n), EmitFrom(t, i, clock).out)
    decreases |t.queue| - i
  {
    if i < |t.queue| {
      var r := EmitOne(t, i, clock[i]);
      assert EmitOne(t.(sndNxt := n), i, clock[i]) == Result(r.t.(sndNxt := n), r.out);
      EmitIgnoresSndNxt(r.t, n, i + 1, clock);
    }
  }

  /** A block that is gone does not look at SND.NXT. */
  lemma GoneIgnoresSndNxt(t: Tcb, n: U32, ev: Event)
    requires Gone(t.state) && Enabled(t, ev) && !ev.Connect? && !ev.ListenCmd?
    ensures Enabled(t.(sndNxt := n), ev)
    ensures Gone(Apply(t, ev).t.state) && Apply(t.(sndNxt := n), ev).out == Apply(t, ev).out
    ensures Settle(t.(sndNxt := n), Apply(t.(sndNxt := n), ev).t) == Settle(t, Apply(t, ev).t).(sndNxt := n)
    ensures Settle(t, Apply(t, ev).t).sndNxt == t.sndNxt
  {
    if ev.TimerTick? {
      EmitIgnoresSndNxt(t, n, 0, ev.clock);
      EmitTouchesTimersOnly(t, 0, ev.clock);
    }
  }

  lemma GoneKeepsHistory(x: Node, ev: Event)
    requires Gone(x.t.state) && Enabled(x.t, ev) && !ev.Connect? && !ev.ListenCmd?
    ensures TxAfter(x, ev) == x.tx && !HeldRefusal(ev) && RxAfter(x, ev) == x.rx
    ensures !(ev.Arrive? && OverstatesWindow(x.t, ev.seg))
  {
    if ev.Receive? {
      assert x.rx.delivered + [] == x.rx.delivered;
    }
  }

  /** Counting the held slice as sent commutes with every step but the refusal itself. */
  lemma WideCommutes(x: Node, ev: Event)
    requires HeldOk(x) && Enabled(x.t, ev) && !HeldRefusal(ev) && (ev.Connect? || ev.ListenCmd? ==> !x.tx.began)
    ensures HeldOk(StepNode(x, ev)) && Enabled(Wide(x).t, ev) && Wide(StepNode(x, ev)) == StepNode(Wide(x), ev)
  {
    if x.held != [] {
      var n := Wide(x).t.sndNxt;
      GoneIgnoresSndNxt(x.t, n, ev);
      GoneKeepsHistory(x, ev);
      GoneKeepsHistory(Wide(x), ev);
    }
  }

  lemma HeldRefusalShape(x: Node, ev: Event)
    requires Enabled(x.t, ev) && HeldRefusal(ev)
    ensures var e := Entry(ev.now, ev.now, DEFAULT_RTO, x.t.sndNxt, PSH_ACK, ev.data);
            StepNode(x, ev) == x.(t := x.t.(state := Closed, queue := x.t.queue + [e]), held := ev.data)
  {
  }

  /** The refusal itself, counted as sent, is a send of which nothing reaches the wire, and a close. */
  lemma HeldShape(x: Node, ev: Event) returns (x': Node, e: Entry)
    requires Enabled(x.t, ev) && HeldRefusal(ev) && Budget(StepNode(x, ev)) && x.held == []
    requires x.tx.began && !x.tx.fin && x.rx.synced && x.t.sndNxt == Nxt(x.t.iss, x.tx) && PiecesOk(x.t.iss, x.tx)
    ensures Extends(x, x', e) && x'.tx == TxSend(x.t.iss, x.tx, e.data) && x'.t.state == x.t.state
    ensures e.flg == PSH_ACK && e.data == ev.data
    ensures Wide(StepNode(x, ev)) == x'.(t := x'.t.(state := Closed)) && HeldOk(StepNode(x, ev))
  {
    HeldRefusalShape(x, ev);
    var send := Send(ev.data, ev.now);
    assert Budget(StepNode(x, send));
    var said;
    x', e, said := SendShape(x, send);
    assert StepNode(x, send) == Say(x', said);
  }

  lemma HeldCore(x: Node, y: Node, x': Node, e: Entry)
    requires PairInv(x, y) && Extends(x, x', e) && x'.tx == TxSend(x.t.iss, x.tx, e.data)
    requires e.flg == PSH_ACK && 0 < |e.data| <= MAX_TEXT && |e.data| <= Cap(x.t)
    requires x'.t.state == x.t.state && MaySend(x.t.state)
    ensures PairInv(x'.(t := x'.t.(state := Closed)), y)
  {
    SendQuietly(x, y, x', e);
    GoneKeepsInv(x', y, Closed);
  }

  lemma HeldRefusalKeepsInv(x: Node, y: Node, ev: Event)
    requires PairInv(x, y) && x.held == [] && Enabled(x.t, ev) && HeldRefusal(ev) && Budget(StepNode(x, ev))
    ensures PairInv(Wide(StepNode(x, ev)), y) && HeldOk(StepNode(x, ev))
  {
    SenderFacts(x);
    var x', e := HeldShape(x, ev);
    HeldCore(x, y, x', e);
  }

  lemma WideCanStep(x: Node, y: Node, ev: Event)
    requires HeldOk(x) && CanStep(x, y, ev) && !HeldRefusal(ev) && Budget(y) && Budget(StepNode(x, ev))
    ensures CanStep(Wide(x), Wide(y), ev) && Budget(Wide(y)) && Budget(StepNode(Wide(x), ev))
    ensures Wide(StepNode(x, ev)) == StepNode(Wide(x), ev) && HeldOk(StepNode(x, ev))
  {
    WideCommutes(x, ev);
    WideBudget(y);
    WideBudget(StepNode(x, ev));
  }

  lemma WideBudget(x: Node)
    requires Budget(x)
    ensures Budget(Wide(x))
  {
  }

  lemma QuietStepKeepsInv(x: Node, y: Node, ev: Event)
    requires WideInv(x, y) && CanStep(x, y, ev) && !HeldRefusal(ev) && Budget(y) && Budget(StepNode(x, ev))
    ensures WideInv(StepNode(x, ev), y)
  {
    WideCanStep(x, y, ev);
    StepKeepsInv(Wide(x), Wide(y), ev);
  }

  lemma RefusalStepKeepsInv(x: Node, y: Node, ev: Event)
    requires WideInv(x, y) && Enabled(x.t, ev) && HeldRefusal(ev) && Budget(StepNode(x, ev))
    ensures WideInv(StepNode(x, ev), y)
  {
    SenderHoldsNothing(x, ev);
    HeldRefusalKeepsInv(x, Wide(y), ev);
  }

  lemma SenderHoldsNothing(x: Node, ev: Event)
    requires HeldOk(x) && Enabled(x.t, ev) && HeldRefusal(ev)
    ensures x.held == [] && Wide(x) == x
  {
  }

  /** Every step of `x` keeps the invariant, held slices counted as sent. */
  lemma WideStepKeepsInv(x: Node, y: Node, ev: Event)
    requires WideInv(x, y) && CanStep(x, y, ev) && Budget(y) && Budget(StepNode(x, ev))
    ensures WideInv(StepNode(x, ev), y)
  {
    if HeldRefusal(ev) {
      RefusalStepKeepsInv(x, y, ev);
    } else {
      QuietStepKeepsInv(x, y, ev);
    }
  }
}
