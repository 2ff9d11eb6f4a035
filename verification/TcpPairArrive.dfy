/**
Delivering a segment of the peer keeps the pair invariant, state by state.
 */
module TcpPairArrive {
  import opened Words
  import opened Clock
  import opened TcpSpec
  import opened TcpQueue
  import opened TcpLocal
  import opened TcpPair
  import opened TcpPairSteps

  // ---- deliveries that leave the block alone, or close it

  ghost predicate AllResets(said: set<Segment>) {
    forall s :: s in said ==> s.flg.rst
  }

  /** Nothing but resets is said and the block is unchanged or gone. */
  ghost predicate Brushed(x: Node, ev: Event)
    requires Enabled(x.t, ev)
  {
    var st := StepNode(x, ev).t.state;
    && (st == x.t.state || Gone(st))
    && AllResets(Said(x, ev))
    && StepNode(x, ev) == Say(x.(t := x.t.(state := st)), Said(x, ev))
  }

  lemma BrushedKeepsInv(x: Node, y: Node, ev: Event)
    requires PairInv(x, y) && Enabled(x.t, ev) && Brushed(x, ev)
    ensures PairInv(StepNode(x, ev), y)
  {
    var st, said := StepNode(x, ev).t.state, Said(x, ev);
    if st == x.t.state {
      SayKeepsInv(x, y, said);
    } else {
      GoneKeepsInv(x, y, st);
      SayKeepsInv(x.(t := x.t.(state := st)), y, said);
    }
  }

  lemma ClosedIgnores(x: Node, ev: Event)
    requires Enabled(x.t, ev) && ev.Arrive? && Gone(x.t.state)
    ensures Brushed(x, ev)
  {
  }

  lemma ListenIgnores(x: Node, ev: Event)
    requires Enabled(x.t, ev) && ev.Arrive? && x.t.state == Listen && !OpensPassively(x.t, ev.seg)
    ensures Brushed(x, ev)
  {
  }

  lemma SynSentIgnores(x: Node, ev: Event)
    requires Enabled(x.t, ev) && ev.Arrive? && x.t.state == SynSent && !SynAccepted(x.t, ev.seg)
    requires x.t.sndUna <= x.t.iss
    ensures Brushed(x, ev)
  {
  }

  // ---- synchronising deliveries

  lemma PassiveOpenShape(x: Node, y: Node, ev: Event)
    requires Enabled(x.t, ev) && ev.Arrive? && OpensPassively(x.t, ev.seg)
    requires OutOk(y.t.iss, y.tx, y.out) && SendVarsOk(y.t, y.tx) && ev.seg in y.out && !x.rx.synced && !x.tx.began
    ensures Begins(x, Quiet(x, ev)) && Syncs(x, y, Quiet(x, ev))
    ensures forall s :: s in Said(x, ev) ==> MaySay(Quiet(x, ev), s)
  {
    var s := ev.seg;
    assert Issued(y.t.iss, y.tx, s.seqNo, s.flg, s.data);
  }

  lemma PassiveOpenKeepsNode(x: Node, ev: Event)
    requires NodeOk(x) && Enabled(x.t, ev) && ev.Arrive? && OpensPassively(x.t, ev.seg) && !x.rx.synced && !x.tx.began
    requires forall s :: s in x.out ==> s.flg.rst
    ensures NodeOk(Quiet(x, ev))
  {
    var e := Entry(ev.env.now, ev.env.now, DEFAULT_RTO, ev.env.random, SYN_ACK, []);
    AppendCovers([], ev.env.random, ev.env.random, e);
    assert Quiet(x, ev).t.queue == [] + [e];
  }

  lemma PassiveOpenKeepsInv(x: Node, y: Node, ev: Event)
    requires PairInv(x, y) && CanStep(x, y, ev) && ev.Arrive? && OpensPassively(x.t, ev.seg)
    ensures PairInv(StepNode(x, ev), y)
  {
    StrangersKnowNothing(x, y);
    PassiveOpenShape(x, y, ev);
    PassiveOpenKeepsNode(x, ev);
    BeginKeepsLink(x, y, Quiet(x, ev));
    SyncKeepsReverse(x, y, Quiet(x, ev));
    SayKeepsInv(Quiet(x, ev), y, Said(x, ev));
    QuietThenSay(x, ev);
  }

  /** Simultaneous open: a SYN without an acknowledgement reaches SYN-SENT. */
  ghost predicate Crosses(x: Node, x': Node, e: Entry) {
    && x' == x.(t := x'.t, rx := x'.rx)
    && x'.t == x.t.(state := SynReceived, queue := x.t.queue + [e], rcvNxt := x'.t.rcvNxt, irs := x'.t.irs)
    && e.seqNo == x.t.iss && e.flg == SYN_ACK && e.data == []
  }

  lemma CrossKeepsNode(x: Node, x': Node, e: Entry)
    requires NodeOk(x) && x.t.state == SynSent && Crosses(x, x', e) && x'.rx == x.rx.(synced := true)
    requires forall s :: s in x.out ==> !CarriesAck(s)
    ensures NodeOk(x')
  {
    AppendCovers([], x.t.iss, x.t.iss, e);
    assert x.t.queue[1..] == [];
    assert x.t.queue[0].seqNo == x.t.iss by {
      assert Covers(x.t.queue[1..], x.t.queue[0].seqNo + 1, x.t.sndNxt);
    }
    assert x'.t.queue[1..] == [] + [e];
  }

  lemma CrossKeepsLink(x: Node, y: Node, x': Node, e: Entry)
    requires LinkOk(x, y) && Crosses(x, x', e)
    ensures LinkOk(x', y)
  {
  }

  lemma CrossShape(x: Node, y: Node, ev: Event) returns (e: Entry)
    requires Enabled(x.t, ev) && ev.Arrive? && x.t.state == SynSent && SynAccepted(x.t, ev.seg) && !ev.seg.flg.ack
    requires OutOk(y.t.iss, y.tx, y.out) && SendVarsOk(y.t, y.tx) && ev.seg in y.out
    requires !x.rx.synced && x.tx.began && x.t.sndUna == x.t.iss
    ensures Syncs(x, y, Quiet(x, ev)) && Crosses(x, Quiet(x, ev), e)
    ensures forall s :: s in Said(x, ev) ==> MaySay(Quiet(x, ev), s)
  {
    assert Issued(y.t.iss, y.tx, ev.seg.seqNo, ev.seg.flg, ev.seg.data);
    e := Entry(ev.env.now, ev.env.now, DEFAULT_RTO, x.t.iss, SYN_ACK, []);
  }

  lemma CrossKeepsInv(x: Node, y: Node, ev: Event)
    requires PairInv(x, y) && CanStep(x, y, ev) && ev.Arrive?
    requires x.t.state == SynSent && SynAccepted(x.t, ev.seg) && !ev.seg.flg.ack
    ensures PairInv(StepNode(x, ev), y)
  {
    StrangersKnowNothing(y, x);
    var e := CrossShape(x, y, ev);
    CrossKeepsNode(x, Quiet(x, ev), e);
    CrossKeepsLink(x, y, Quiet(x, ev), e);
    SyncKeepsReverse(x, y, Quiet(x, ev));
    SayKeepsInv(Quiet(x, ev), y, Said(x, ev));
    QuietThenSay(x, ev);
  }

  /** The SYN is answered: SYN-SENT becomes ESTABLISHED. */
  ghost predicate Establishes(x: Node, x': Node, s: Segment) {
    && x' == x.(t := x'.t, rx := x'.rx)
    && x'.t == x.t.(state := Established, sndUna := s.ackNo, queue := [],
                    sndWnd := s.wnd, wl1 := s.seqNo, wl2 := s.ackNo,
                    rcvNxt := x'.t.rcvNxt, irs := x'.t.irs)
    && s.ackNo == x.t.sndNxt
  }

  lemma EstablishKeepsNode(x: Node, x': Node, s: Segment)
    requires NodeOk(x) && x.t.state == SynSent && Establishes(x, x', s) && x'.rx == x.rx.(synced := true)
    requires forall u :: u in x.out ==> !CarriesAck(u)
    ensures NodeOk(x')
  {
  }

  lemma EstablishKeepsLink(x: Node, y: Node, x': Node, s: Segment)
    requires LinkOk(x, y) && OffersOk(y.out, RightEdge(y.t)) && OutOk(y.t.iss, y.tx, y.out) && PiecesOk(y.t.iss, y.tx)
    requires s in y.out && CarriesAck(s) && Establishes(x, x', s) && x.tx.began && x.tx.stream == []
    ensures LinkOk(x', y)
  {
    IssuedBounds(y.t.iss, y.tx, s);
    assert OffersReach(y.out, s.ackNo, Offer(s));
  }

  lemma EstablishShape(x: Node, y: Node, ev: Event)
    requires Enabled(x.t, ev) && ev.Arrive? && x.t.state == SynSent && SynAccepted(x.t, ev.seg) && ev.seg.flg.ack
    requires OutOk(y.t.iss, y.tx, y.out) && SendVarsOk(y.t, y.tx) && ev.seg in y.out
    requires !x.rx.synced && x.tx.began && x.t.sndUna == x.t.iss && x.t.sndNxt == x.t.iss + 1 == Nxt(x.t.iss, x.tx)
    requires |x.t.queue| == 1 && x.t.queue[0].seqNo == x.t.iss
    ensures Syncs(x, y, Quiet(x, ev)) && Establishes(x, Quiet(x, ev), ev.seg)
    ensures forall s :: s in Said(x, ev) ==> MaySay(Quiet(x, ev), s)
  {
    assert Issued(y.t.iss, y.tx, ev.seg.seqNo, ev.seg.flg, ev.seg.data);
    assert x.t.queue[1..] == [];
    assert Cleanup(x.t.queue, ev.seg.ackNo) == [];
  }

  lemma SynSentQueue(x: Node)
    requires NodeOk(x) && x.t.state == SynSent
    ensures |x.t.queue| == 1 && x.t.queue[0].seqNo == x.t.iss && x.t.sndNxt == x.t.iss + 1 && x.tx.began && !x.rx.synced
  {
  }

  lemma EstablishKeepsInv(x: Node, y: Node, ev: Event)
    requires PairInv(x, y) && CanStep(x, y, ev) && ev.Arrive?
    requires x.t.state == SynSent && SynAccepted(x.t, ev.seg) && ev.seg.flg.ack
    ensures PairInv(StepNode(x, ev), y)
  {
    StrangersKnowNothing(y, x);
    SynSentQueue(x);
    EstablishShape(x, y, ev);
    EstablishKeepsNode(x, Quiet(x, ev), ev.seg);
    EstablishKeepsLink(x, y, Quiet(x, ev), ev.seg);
    SyncKeepsReverse(x, y, Quiet(x, ev));
    SayKeepsInv(Quiet(x, ev), y, Said(x, ev));
    QuietThenSay(x, ev);
  }

  // ---- deliveries in synchronised states

  lemma AckInRange(x: Node, y: Node, s: Segment)
    requires NodeOk(x) && LinkOk(x, y) && s in y.out && CarriesAck(s)
    ensures x.tx.began && x.t.iss < s.ackNo <= x.t.sndNxt && Whole(x.tx.pieces, s.ackNo)
  {
    assert Reached(x.t.iss, x.tx.pieces, y.rx.synced, y.t.rcvNxt, s.ackNo);
  }

  lemma OutsideWindowKeepsInv(x: Node, y: Node, ev: Event)
    requires PairInv(x, y) && CanStep(x, y, ev) && ev.Arrive?
    requires Synchronised(x.t.state) && !Acceptable(x.t, ev.seg)
    ensures PairInv(StepNode(x, ev), y)
  {
    OutsideWindowShape(x, ev);
    SayKeepsInv(x, y, Said(x, ev));
  }

  lemma OutsideWindowShape(x: Node, ev: Event)
    requires Enabled(x.t, ev) && ev.Arrive? && Synchronised(x.t.state) && !Acceptable(x.t, ev.seg)
    requires x.tx.began && x.rx.synced && x.t.iss < x.t.sndNxt == Nxt(x.t.iss, x.tx)
    ensures StepNode(x, ev) == Say(x, Said(x, ev))
    ensures forall s :: s in Said(x, ev) ==> MaySay(x, s)
  {
  }

  lemma StoppedShape(x: Node, ev: Event)
    requires Enabled(x.t, ev) && ev.Arrive? && Synchronised(x.t.state) && Acceptable(x.t, ev.seg)
    requires !Reaches(x.t, ev.seg, ev.env) && (CarriesAck(ev.seg) ==> ev.seg.ackNo <= x.t.sndNxt)
    ensures !ev.seg.flg.rst && !ev.seg.flg.syn && ev.seg.flg.ack ==> x.t.state == LastAck || x.t.state == SynReceived
    ensures Brushed(x, ev)
  {
  }

  /** `x` after the acknowledgement check, when processing goes on. */
  function AfterAck(x: Node, s: Segment, env: Env): Node
    requires ProcessAck(x.t, s, env).Continue?
  {
    x.(t := ProcessAck(x.t, s, env).t, stale := x.stale || OverstatesWindow(x.t, s))
  }

  lemma AckShape(x: Node, s: Segment, env: Env)
    requires Reaches(x.t, s, env) && x.t.iss < s.ackNo <= x.t.sndNxt && x.t.iss <= x.t.sndUna
    ensures var moved := x.t.state != TimeWait && x.t.sndUna < s.ackNo;
            var x1 := if moved then Advance(x, s) else x;
            var x2 := AfterAck(x, s, env);
            && x2 == x1.(t := x1.t.(state := x2.t.state, twTimer := x2.t.twTimer))
            && Synchronised(x2.t.state) && x2.t.state != SynReceived
            && (MaySend(x2.t.state) ==> x2.t.sndUna > x.t.iss && (MaySend(x.t.state) || x.t.state == SynReceived))
  {
  }

  lemma AdvanceKeepsInv(x: Node, y: Node, s: Segment)
    requires PairInv(x, y) && s in y.out && CarriesAck(s) && !s.flg.syn && Synchronised(x.t.state)
    requires x.t.sndUna < s.ackNo
    ensures PairInv(Advance(x, s), y)
  {
    AckInRange(x, y, s);
    AdvanceKeepsNode(x, s);
    AdvanceKeepsLink(x, y, s);
    AdvanceKeepsReverse(x, y, s);
  }

  lemma AckCore(x: Node, y: Node, s: Segment, x1: Node, st: State, tw: Time)
    requires PairInv(x, y) && s in y.out && CarriesAck(s) && !s.flg.syn && Synchronised(x.t.state)
    requires x1 == x || (x.t.sndUna < s.ackNo && x1 == Advance(x, s))
    requires Synchronised(st) && st != SynReceived && (MaySend(st) ==> !x.tx.fin && x1.t.sndUna > x.t.iss)
    ensures PairInv(x1.(t := x1.t.(state := st, twTimer := tw)), y)
  {
    if x1 != x {
      AdvanceKeepsInv(x, y, s);
    }
    assert Synchronised(x1.t.state) && x1.tx == x.tx && x1.t.iss == x.t.iss;
    MoveKeepsNode(x1, st, tw);
    MoveKeepsLinks(x1, y, st, tw);
  }

  lemma AfterAckKeepsInv(x: Node, y: Node, s: Segment, env: Env)
    requires PairInv(x, y) && s in y.out && Reaches(x.t, s, env)
    ensures PairInv(AfterAck(x, s, env), y)
  {
    AckInRange(x, y, s);
    AckShape(x, s, env);
    var x2 := AfterAck(x, s, env);
    var x1 := if x.t.state != TimeWait && x.t.sndUna < s.ackNo then Advance(x, s) else x;
    AckCore(x, y, s, x1, x2.t.state, x2.t.twTimer);
  }

  lemma BareAckMaySay(x: Node)
    requires NodeOk(x) && Synchronised(x.t.state)
    ensures MaySay(x, AckNow(x.t))
  {
  }

  function SayAck(x: Node): Node {
    Say(x, {AckNow(x.t)})
  }

  lemma SayAckKeepsInv(x: Node, y: Node)
    requires PairInv(x, y) && Synchronised(x.t.state)
    ensures PairInv(SayAck(x), y)
  {
    BareAckMaySay(x);
    SayKeepsInv(x, y, {AckNow(x.t)});
  }

  lemma MoveKeepsInv(x: Node, y: Node, st: State, tw: Time)
    requires PairInv(x, y) && Synchronised(x.t.state) && Synchronised(st) && st != SynReceived
    requires MaySend(st) ==> MaySend(x.t.state)
    ensures PairInv(x.(t := x.t.(state := st, twTimer := tw)), y)
  {
    MoveKeepsNode(x, st, tw);
    MoveKeepsLinks(x, y, st, tw);
  }

  lemma TextKeepsInv(x: Node, y: Node, s: Segment)
    requires PairInv(x, y) && Budget(y) && s in y.out && !s.flg.rst && !s.flg.syn && s.data != []
    requires ReadsText(x.t.state) && Acceptable(x.t, s)
    ensures PairInv(TakeText(x, s), y) && TakeText(x, s).t.state == x.t.state
  {
    AcceptedTextIsAhead(x, y, s);
    TextKeepsNode(x, s);
    TextKeepsLink(x, y, s);
    TextKeepsReverse(x, y, s);
  }

  lemma FinKeepsInv(x: Node, y: Node, s: Segment)
    requires PairInv(x, y) && Budget(y) && s in y.out && !s.flg.rst && !s.flg.syn && s.flg.fin
    requires Synchronised(x.t.state) && Acceptable(x.t, s)
    ensures PairInv(TakeFin(x, s), y) && TakeFin(x, s).t.state == x.t.state
  {
    AcceptedFinIsNew(x, y, s);
    FinKeepsNode(x, s);
    FinKeepsLink(x, y, s);
    FinKeepsReverse(x, y, s);
  }

  /** A delivery that reaches the text and FIN steps, unfolded once. */
  lemma ReachShape(x: Node, ev: Event)
    requires Enabled(x.t, ev) && ev.Arrive? && Reaches(x.t, ev.seg, ev.env)
    ensures var x1 := AfterAck(x, ev.seg, ev.env);
            var r := ProcessTextAndFin(x1.t, ev.seg, ev.env);
            r.t.state != Free ==>
              StepNode(x, ev) ==
              x1.(t := r.t, out := x.out + (set s | s in r.out),
                  rx := RxTakes(x.rx, x.t, ev.seg, TakesText(x.t, ev.seg, ev.env), ev.seg.flg.fin))
  {
  }

  lemma AfterAckFrame(x: Node, s: Segment, env: Env)
    requires Reaches(x.t, s, env)
    ensures var x1 := AfterAck(x, s, env);
            && x1 == x.(t := x1.t, stale := x1.stale)
            && x1.t.rcvNxt == x.t.rcvNxt && x1.t.rcvWnd == x.t.rcvWnd && x1.t.buf == x.t.buf && Acceptable(x1.t, s)
  {
  }

  lemma TextBlockShape(t: Tcb, s: Segment, env: Env)
    requires !s.flg.fin && s.data != [] && ReadsText(t.state)
    ensures var wnd: U16 := (t.rcvWnd - |s.data|) % TWO_16;
            var t1 := t.(buf := Filled(t.buf + s.data, wnd), rcvNxt := Add32(s.seqNo, SegLen(s)), rcvWnd := wnd);
            ProcessTextAndFin(t, s, env) == Result(t1, [AckNow(t1)])
  {
  }

  lemma TextShape(x: Node, ev: Event)
    requires Enabled(x.t, ev) && ev.Arrive? && TakesText(x.t, ev.seg, ev.env) && !ev.seg.flg.fin
    ensures StepNode(x, ev) == SayAck(TakeText(AfterAck(x, ev.seg, ev.env), ev.seg))
  {
    ReachShape(x, ev);
    AfterAckFrame(x, ev.seg, ev.env);
    TextBlockShape(AfterAck(x, ev.seg, ev.env).t, ev.seg, ev.env);
  }

  /** What the FIN step does to the block itself. */
  lemma FinBlockShape(t: Tcb, s: Segment, env: Env)
    requires s.flg.fin && s.data == [] && Synchronised(t.state) && t.state != SynReceived
    ensures var r := ProcessTextAndFin(t, s, env);
            && r.t == t.(rcvNxt := Add32(s.seqNo, 1), state := r.t.state, twTimer := r.t.twTimer)
            && r.out == [AckNow(t.(rcvNxt := Add32(s.seqNo, 1)))]
            && Synchronised(r.t.state) && r.t.state != SynReceived && (MaySend(r.t.state) ==> MaySend(t.state))
  {
    assert ProcessText(t, s) == Result(t, []);
  }

  lemma FinShape(x: Node, ev: Event)
    requires Enabled(x.t, ev) && ev.Arrive? && TakesFin(x.t, ev.seg, ev.env) && ev.seg.data == []
    requires AfterAck(x, ev.seg, ev.env).t.state != SynReceived && Synchronised(AfterAck(x, ev.seg, ev.env).t.state)
    ensures var x1 := AfterAck(x, ev.seg, ev.env);
            var x2 := SayAck(TakeFin(x1, ev.seg));
            var x3 := StepNode(x, ev);
            && x3 == x2.(t := x2.t.(state := x3.t.state, twTimer := x3.t.twTimer))
            && Synchronised(x3.t.state) && x3.t.state != SynReceived && (MaySend(x3.t.state) ==> MaySend(x1.t.state))
  {
    ReachShape(x, ev);
    AfterAckFrame(x, ev.seg, ev.env);
    FinBlockShape(AfterAck(x, ev.seg, ev.env).t, ev.seg, ev.env);
  }

  lemma PlainShape(x: Node, ev: Event)
    requires Enabled(x.t, ev) && ev.Arrive? && Reaches(x.t, ev.seg, ev.env)
    requires !TakesText(x.t, ev.seg, ev.env) && !ev.seg.flg.fin
    ensures StepNode(x, ev) == AfterAck(x, ev.seg, ev.env)
  {
  }

  lemma FinDeliveryKeepsInv(x: Node, y: Node, ev: Event)
    requires PairInv(x, y) && CanStep(x, y, ev) && Budget(y) && ev.Arrive? && TakesFin(x.t, ev.seg, ev.env)
    requires PairInv(AfterAck(x, ev.seg, ev.env), y)
    requires AfterAck(x, ev.seg, ev.env).t.state != SynReceived && Synchronised(AfterAck(x, ev.seg, ev.env).t.state)
    ensures PairInv(StepNode(x, ev), y)
  {
    var s, x1 := ev.seg, AfterAck(x, ev.seg, ev.env);
    AcceptedFinIsNew(x, y, s);
    AfterAckFrame(x, s, ev.env);
    FinShape(x, ev);
    FinKeepsInv(x1, y, s);
    SayAckKeepsInv(TakeFin(x1, s), y);
    MoveKeepsInv(SayAck(TakeFin(x1, s)), y, StepNode(x, ev).t.state, StepNode(x, ev).t.twTimer);
  }

  lemma TextDeliveryKeepsInv(x: Node, y: Node, ev: Event)
    requires PairInv(x, y) && CanStep(x, y, ev) && Budget(y) && ev.Arrive? && TakesText(x.t, ev.seg, ev.env)
    requires PairInv(AfterAck(x, ev.seg, ev.env), y)
    ensures PairInv(StepNode(x, ev), y)
  {
    var s, x1 := ev.seg, AfterAck(x, ev.seg, ev.env);
    AcceptedTextIsAhead(x, y, s);
    AfterAckFrame(x, s, ev.env);
    TextShape(x, ev);
    TextKeepsInv(x1, y, s);
    SayAckKeepsInv(TakeText(x1, s), y);
  }

  lemma ReachesKeepsInv(x: Node, y: Node, ev: Event)
    requires PairInv(x, y) && CanStep(x, y, ev) && Budget(y) && ev.Arrive? && Reaches(x.t, ev.seg, ev.env)
    ensures PairInv(StepNode(x, ev), y)
  {
    AfterAckKeepsInv(x, y, ev.seg, ev.env);
    if ev.seg.flg.fin {
      AckInRange(x, y, ev.seg);
      AckShape(x, ev.seg, ev.env);
      FinDeliveryKeepsInv(x, y, ev);
    } else if TakesText(x.t, ev.seg, ev.env) {
      TextDeliveryKeepsInv(x, y, ev);
    } else {
      PlainShape(x, ev);
    }
  }

  /** Every delivery keeps the invariant. */
  lemma ArriveKeepsInv(x: Node, y: Node, ev: Event)
    requires PairInv(x, y) && CanStep(x, y, ev) && Budget(y) && ev.Arrive?
    ensures PairInv(StepNode(x, ev), y)
  {
    var s := ev.seg;
    if Reaches(x.t, s, ev.env) {
      ReachesKeepsInv(x, y, ev);
    } else if Synchronised(x.t.state) {
      if Acceptable(x.t, s) {
        if CarriesAck(s) {
          AckInRange(x, y, s);
        }
        StoppedShape(x, ev);
        BrushedKeepsInv(x, y, ev);
      } else {
        OutsideWindowKeepsInv(x, y, ev);
      }
    } else if x.t.state == SynSent {
      SynSentArriveKeepsInv(x, y, ev);
    } else if OpensPassively(x.t, s) {
      PassiveOpenKeepsInv(x, y, ev);
    } else {
      if x.t.state == Listen {
        ListenIgnores(x, ev);
      } else {
        ClosedIgnores(x, ev);
      }
      BrushedKeepsInv(x, y, ev);
    }
  }

  lemma SynSentArriveKeepsInv(x: Node, y: Node, ev: Event)
    requires PairInv(x, y) && CanStep(x, y, ev) && ev.Arrive? && x.t.state == SynSent
    ensures PairInv(StepNode(x, ev), y)
  {
    if !SynAccepted(x.t, ev.seg) {
      SynSentIgnores(x, ev);
      BrushedKeepsInv(x, y, ev);
    } else if ev.seg.flg.ack {
      EstablishKeepsInv(x, y, ev);
    } else {
      CrossKeepsInv(x, y, ev);
    }
  }
}
